/** The loops of the launch census, each proved against its specification. */
module CensusReplay {
  import opened Options
  import opened LaunchCensus
  import opened CensusProofs
  import M = CensusMeaning

  /** The record loop. */
  method ReadTrace(rows: seq<Row>, c: Config) returns (r: Outcome<State>)
    ensures r == Run(rows, c)
    ensures r.Ok? ==> Inv(r.value, c)
  {
    hide Step, Inv;
    r := Ok(INITIAL);
    for n := 0 to |rows|
      invariant r == Run(rows[..n], c)
    {
      assert rows[..n + 1][..n] == rows[..n];
      if r.Ok? { r := Step(r.value, c, rows[n]); }
    }
    assert rows[..|rows|] == rows;
    if r.Ok? { RunKeeps(rows, c); }
  }

  /** Walks the parent links of a call. The depth test never fires, because the trace reader
      has already bounded every depth. */
  method WalkAncestors(s: State, ghost c: Config, key: nat) returns (ancestors: set<nat>, fault: Option<Fault>)
    requires Inv(s, c) && 1 <= key <= |s.apis|
    ensures fault.None?
    ensures forall a :: a in ancestors <==> ProperAncestor(s.apis, a, key)
  {
    hide Inv, ProperAncestor, AmongAbove, DepthOf;
    ancestors := {};
    var parent, depth: nat := s.apis[key - 1].parent, 0;
    ParentFacts(s, c, key);
    AboveNext(s.apis, key, 0);
    AmongNone(s.apis, key);
    while parent != 0
      invariant parent < key && parent == Above(s.apis, key, depth + 1)
      invariant DepthOf(s.depths, parent) + depth + 1 == DepthOf(s.depths, key) <= MAX_DEPTH
      invariant forall a :: a in ancestors <==> AmongAbove(s.apis, a, key, depth)
      decreases parent
    {
      ParentFacts(s, c, parent);
      AboveNext(s.apis, key, depth + 1);
      AmongNext(s.apis, key, depth, depth + 1);
      ancestors := ancestors + {parent};
      parent := s.apis[parent - 1].parent;
      depth := depth + 1;
      if depth > MAX_DEPTH { return ancestors, Some(ApiDepth); }
    }
    AmongAll(s.apis, key, depth);
    fault := None;
  }

  lemma AmongNone(apis: seq<Api>, k: nat)
    ensures forall a :: !AmongAbove(apis, a, k, 0)
  {
  }

  /** The candidates that are an ancestor of no candidate. */
  method FindLeaves(s: State, ghost c: Config, candidates: set<nat>) returns (leaves: set<nat>, fault: Option<Fault>)
    requires Inv(s, c) && forall k :: k in candidates ==> 1 <= k <= |s.apis|
    ensures fault.None? && leaves == Leaves(s, candidates)
    ensures leaves <= candidates && (leaves != {} <==> candidates != {})
  {
    hide Inv, ProperAncestor;
    var ancestors: set<nat>, todo := {}, candidates;
    while todo != {}
      invariant todo <= candidates
      invariant forall a :: a in ancestors <==> exists d :: d in candidates - todo && ProperAncestor(s.apis, a, d)
      decreases |todo|
    {
      var key :| key in todo;
      var above;
      above, fault := WalkAncestors(s, c, key);
      if fault.Some? { return {}, fault; }
      ancestors := ancestors + above;
      todo := todo - {key};
    }
    leaves := candidates - ancestors;
    fault := None;
    InvRooted(s, c);
    LeavesExist(s, c, candidates);
  }

  lemma InvRooted(s: State, c: Config)
    requires Inv(s, c)
    ensures Rooted(s, c)
  {
  }

  /** Groups the finished launches by correlation. */
  method BuildLaunches(s: State, c: Config) returns (launches: map<nat, set<nat>>)
    ensures forall correlation: nat :: Lookup(launches, correlation) == Candidates(s, c, correlation)
  {
    hide CandidatesBelow;
    launches := map[];
    CandidatesNone(s, c);
    for i := 0 to |s.apis|
      invariant forall correlation: nat :: Lookup(launches, correlation) == CandidatesBelow(s, c, correlation, i)
    {
      ghost var before := launches;
      if i + 1 !in s.active && c.launch(s.apis[i].symbol) {
        launches := launches[s.apis[i].correlation := Lookup(launches, s.apis[i].correlation) + {i + 1}];
      }
      forall correlation: nat ensures Lookup(launches, correlation) == CandidatesBelow(s, c, correlation, i + 1) {
        assert Lookup(before, correlation) == CandidatesBelow(s, c, correlation, i);
        CandidatesNext(s, c, correlation, i);
      }
    }
    CandidatesEnd(s, c);
  }

  function Lookup(launches: map<nat, set<nat>>, correlation: nat): set<nat> {
    if correlation in launches then launches[correlation] else {}
  }

  function CandidatesBelow(s: State, c: Config, correlation: nat, n: nat): set<nat>
    requires n <= |s.apis|
  {
    set i | 0 <= i < n && i + 1 !in s.active && c.launch(s.apis[i].symbol)
            && s.apis[i].correlation == correlation :: i + 1
  }

  lemma CandidatesNone(s: State, c: Config)
    ensures forall correlation: nat :: CandidatesBelow(s, c, correlation, 0) == {}
  {
  }

  lemma CandidatesNext(s: State, c: Config, correlation: nat, n: nat)
    requires n < |s.apis|
    ensures CandidatesBelow(s, c, correlation, n + 1) == CandidatesBelow(s, c, correlation, n)
              + if n + 1 !in s.active && c.launch(s.apis[n].symbol) && s.apis[n].correlation == correlation
                then {n + 1} else {}
  {
  }

  lemma CandidatesEnd(s: State, c: Config)
    ensures forall correlation: nat ::
              CandidatesBelow(s, c, correlation, |s.apis|) == Candidates(s, c, correlation)
  {
  }

  /** The kernel loop and the group limit. */
  method ResolveKernels(s: State, c: Config) returns (r: Outcome<Tally>)
    requires Inv(s, c)
    ensures r == ResolveAll(s, c, |s.kernels|)
  {
    hide Inv, Leaves, Candidates, Lookup, Resolve;
    var launches := BuildLaunches(s, c);
    var t := ZERO;
    for n := 0 to |s.kernels|
      invariant ResolveAll(s, c, n) == Ok(t) && t.counts.Keys == {Marked, Unmarked, Uncorrelated}
    {
      var one := ResolveOne(s, c, launches, t, s.kernels[n]);
      if one.Fail? {
        FaultStays(s, c, n + 1);
        return one;
      }
      t := one.value;
    }
    r := Ok(t);
  }

  method ResolveOne(s: State, c: Config, launches: map<nat, set<nat>>, t: Tally, kernel: Kernel)
    returns (r: Outcome<Tally>)
    requires Inv(s, c) && t.counts.Keys == {Marked, Unmarked, Uncorrelated}
    requires forall correlation: nat :: Lookup(launches, correlation) == Candidates(s, c, correlation)
    ensures r == Resolve(s, c, t, kernel)
  {
    hide Inv, Lookup, AddGroup, Identify;
    var candidates := Lookup(launches, kernel.correlation);
    assert candidates == Candidates(s, c, kernel.correlation);
    var ids := FindMarkers(s, c, candidates);
    if ids.Fail? { return Fail(ids.fault); }
    var links := Links(s, candidates);
    LinksExist(s, candidates);
    hide Links, Candidates;
    var category := if ids.value != {} then Marked else if links != {} then Unmarked else Uncorrelated;
    var origin := if links == {} then "unobserved" else c.render(links);
    if |origin| > MAX_ORIGIN { return Fail(OriginLimit); }
    return Ok(Tally(t.counts[category := t.counts[category] + 1], t.observed + ids.value,
                    AddGroup(t.groups, GroupKey(kernel.name, origin, category))));
  }

  method FindMarkers(s: State, ghost c: Config, candidates: set<nat>) returns (r: Outcome<set<nat>>)
    requires Inv(s, c) && forall k :: k in candidates ==> 1 <= k <= |s.apis|
    ensures r == Identify(s, candidates)
  {
    hide Inv, Leaves;
    var leaves, fault := FindLeaves(s, c, candidates);
    if leaves * s.failed != {} { return Fail(FailedLaunch); }
    var markers := Markers(s, leaves);
    return if |markers| > 1 then Fail(AmbiguousMarker) else Ok(markers - {0});
  }

  lemma LinksExist(s: State, candidates: set<nat>)
    requires forall k :: k in candidates ==> 1 <= k <= |s.apis|
    ensures Links(s, candidates) != {} <==> candidates != {}
  {
    if k :| k in candidates { assert (s.apis[k - 1].domain, s.apis[k - 1].symbol) in Links(s, candidates); }
  }

  lemma {:induction false} FaultStays(s: State, c: Config, n: nat)
    requires n <= |s.kernels| && ResolveAll(s, c, n).Fail?
    ensures ResolveAll(s, c, |s.kernels|) == ResolveAll(s, c, n)
    decreases |s.kernels| - n
  {
    if n < |s.kernels| { FaultStays(s, c, n + 1); }
  }

  lemma TotalNext(groups: seq<(GroupKey, nat)>, n: nat)
    requires n < |groups|
    ensures forall k :: Total(groups[n..], k) ==
              Total(groups[n + 1..], k) + if groups[n].0.category == k then groups[n].1 else 0
  {
    assert groups[n..][1..] == groups[n + 1..];
  }

  lemma NothingLeft(groups: seq<(GroupKey, nat)>)
    ensures groups[0..] == groups && forall k :: Total(groups[|groups|..], k) == 0
  {
  }

  /** The report test over the counts and kernel rows. */
  method ValidateReport(kernels: nat, probeCalls: nat, t: Tally) returns (ok: bool)
    requires t.counts.Keys == {Marked, Unmarked, Uncorrelated}
    ensures ok <==> Reconciles(kernels, probeCalls, t)
  {
    hide Total;
    if kernels != t.counts[Marked] + t.counts[Unmarked] + t.counts[Uncorrelated]
       || |t.observed| > Smaller(probeCalls, t.counts[Marked]) || kernels == 0 {
      return false;
    }
    var marked, unmarked, uncorrelated: nat, seen: set<GroupKey> := 0, 0, 0, {};
    NothingLeft(t.groups);
    for n := 0 to |t.groups|
      invariant forall key :: key in seen <==> exists i :: 0 <= i < n && t.groups[i].0 == key
      invariant forall i, j :: 0 <= i < j < n ==> t.groups[i].0 != t.groups[j].0
      invariant forall i :: 0 <= i < n ==> t.groups[i].1 > 0
      invariant marked + Total(t.groups[n..], Marked) == Total(t.groups, Marked)
      invariant unmarked + Total(t.groups[n..], Unmarked) == Total(t.groups, Unmarked)
      invariant uncorrelated + Total(t.groups[n..], Uncorrelated) == Total(t.groups, Uncorrelated)
    {
      var (key, count) := t.groups[n];
      if key in seen || count == 0 { return false; }
      seen := seen + {key};
      TotalNext(t.groups, n);
      match key.category
      case Marked => marked := marked + count;
      case Unmarked => unmarked := unmarked + count;
      case Uncorrelated => uncorrelated := uncorrelated + count;
    }
    ok := marked == t.counts[Marked] && unmarked == t.counts[Unmarked] && uncorrelated == t.counts[Uncorrelated];
  }

  /** The whole analysis: when it succeeds, what its result says of the records, and that the
      result passes the report test. */
  method Analyze(rows: seq<Row>, c: Config) returns (r: Outcome<Tally>)
    ensures r == Analysis(rows, c)
    ensures r.Ok? <==> M.AllFit(rows, c) && M.Countable(M.CensusOf(rows), c)
    ensures r.Ok? ==> M.Reports(M.CensusOf(rows), c, r.value)
    ensures r.Ok? ==> Reconciles(|Run(rows, c).value.kernels|, c.probeCalls, r.value)
  {
    hide Inv, Reconciles, ResolveAll, M.Countable, M.Reports, M.CensusOf, M.AllFit;
    M.AnalysisExact(rows, c);
    M.TraceExact(rows, c);
    var s := ReadTrace(rows, c);
    if s.Fail? { return Fail(s.fault); }
    if !Complete(s.value) { return Fail(Incomplete); }
    r := ResolveKernels(s.value, c);
    if r.Ok? && |r.value.groups| > MAX_GROUPS { return Fail(NameLimit); }
    if r.Ok? { AnalysisReconciles(rows, c); }
  }
}
