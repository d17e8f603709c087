/** Which records the launch census accepts and what its counts mean, read off the records. */
module CensusMeaning {
  import opened Options
  import opened LaunchCensus
  import opened CensusProofs

  /** The calls in the order of their identities, which of them finished and which failed, the
      kernels, and the summary. */
  datatype Census = Census(calls: seq<Api>, finished: set<nat>, failures: set<nat>, kernels: seq<Kernel>,
                           summary: Option<Summary>)

  const BLANK := Census([], {}, {}, [], None)

  function Note(w: Census, row: Row): Census {
    match row
    case Enter(_, api) => w.(calls := w.calls + [api])
    case Exit(key, _, result) =>
      w.(finished := w.finished + {key}, failures := if result != 0 then w.failures + {key} else w.failures)
    case KernelRow(kernel, _, _) => w.(kernels := w.kernels + [kernel])
    case SummaryRow(summary) => w.(summary := Some(summary))
  }

  function CensusOf(rows: seq<Row>): Census {
    if rows == [] then BLANK else Note(CensusOf(rows[..|rows| - 1]), rows[|rows| - 1])
  }

  ghost predicate Shows(w: Census, s: State) {
    && s.apis == w.calls && s.failed == w.failures && s.kernels == w.kernels && s.summary == w.summary
    && (forall k :: k in w.finished <==> 1 <= k <= |s.apis| && k !in s.active)
  }

  lemma StepShows(w: Census, s: State, c: Config, row: Row)
    requires Inv(s, c) && Shows(w, s) && Step(s, c, row).Ok?
    ensures Shows(Note(w, row), Step(s, c, row).value)
  {
    hide Rooted, Counted, DepthOf, Count;
  }

  /** The tables of an accepted trace hold what its records say. */
  lemma {:induction false} CensusExact(rows: seq<Row>, c: Config)
    requires Run(rows, c).Ok?
    ensures Shows(CensusOf(rows), Run(rows, c).value)
  {
    hide Step, Inv, Shows, Note;
    if rows == [] {
      BlankShows();
    } else {
      var n := |rows| - 1;
      CensusExact(rows[..n], c);
      RunKeeps(rows[..n], c);
      StepShows(CensusOf(rows[..n]), Run(rows[..n], c).value, c, rows[n]);
    }
  }

  lemma BlankShows()
    ensures Shows(BLANK, INITIAL)
  {
  }

  // ---- which records are accepted ----

  predicate IsOpen(w: Census, k: nat) {
    1 <= k <= |w.calls| && k !in w.finished
  }

  predicate Marks(c: Config, api: Api) {
    api.marker <= c.probeCalls && api.correlation != 0
  }

  /** The record fits those before it: calls are numbered from one and enter under an open call
      with fewer than 64 calls from there up to the root, and leave as they entered, after all
      calls under them. */
  ghost predicate Fits(w: Census, c: Config, row: Row) {
    w.summary.None? &&
    match row
    case Enter(key, api) =>
      && Marks(c, api) && key == |w.calls| + 1 && |w.calls| < c.apiLimit
      && (api.parent == 0 || IsOpen(w, api.parent)) && Above(w.calls, api.parent, 63) == 0
    case Exit(key, api, _) =>
      && Marks(c, api) && IsOpen(w, key) && w.calls[key - 1] == api
      && forall k :: IsOpen(w, k) ==> w.calls[k - 1].parent != key
    case KernelRow(kernel, start, end) =>
      kernel.correlation != 0 && start != 0 && start <= end && |w.kernels| < 100_000
    case SummaryRow(_) => true
  }

  /** The depth of a call is the number of links up to the root. */
  lemma {:induction false} DepthExact(s: State, c: Config, k: nat, n: nat)
    requires Rooted(s, c) && k <= |s.apis|
    ensures DepthOf(s.depths, k) <= n <==> Above(s.apis, k, n) == 0
    decreases n
  {
    if k != 0 {
      assert RootedAt(s, c, k - 1);
      if n > 0 { DepthExact(s, c, s.apis[k - 1].parent, n - 1); }
    } else {
      AboveRootStays(s.apis, 0, 0, n);
    }
  }

  lemma OpenExact(w: Census, s: State, k: nat)
    requires OpenCalls(s) && Shows(w, s)
    ensures IsOpen(w, k) <==> k in s.active
    ensures k in s.active ==> s.active[k] == w.calls[k - 1]
  {
  }

  lemma ChildrenExact(w: Census, s: State, key: nat)
    requires OpenCalls(s) && Counted(s) && Shows(w, s)
    ensures Count(s.children, key) == 0 <==> forall k :: IsOpen(w, k) ==> w.calls[k - 1].parent != key
  {
    hide Shows, OpenCalls;
    forall k: nat ensures IsOpen(w, k) <==> k in s.active { OpenExact(w, s, k); }
    if Count(s.children, key) == 0 {
      NoOpenChild(s, key);
      forall k | IsOpen(w, k) ensures w.calls[k - 1].parent != key { OpenExact(w, s, k); }
    }
    if forall k :: IsOpen(w, k) ==> w.calls[k - 1].parent != key {
      forall k | k in s.active ensures s.active[k].parent != key { OpenExact(w, s, k); }
      assert OpenChildren(s.active, key) == {};
    }
  }

  lemma RowFits(w: Census, s: State, c: Config, row: Row)
    requires Inv(s, c) && Shows(w, s)
    ensures Step(s, c, row).Ok? <==> Fits(w, c, row)
  {
    hide Rooted, Counted, OpenCalls, IsOpen, Above, DepthOf, Count;
    match row
    case Enter(key, api) =>
      OpenExact(w, s, api.parent);
      if api.parent <= |s.apis| { DepthExact(s, c, api.parent, 63); }
      OpenBelow(s, api.parent);
    case Exit(key, api, _) =>
      OpenExact(w, s, key);
      ChildrenExact(w, s, key);
    case _ =>
  }

  lemma OpenBelow(s: State, k: nat)
    requires OpenCalls(s)
    ensures k in s.active ==> k <= |s.apis|
  {
  }

  /** A record is accepted exactly when it fits the records before it. */
  lemma RecordExact(rows: seq<Row>, c: Config, row: Row)
    requires Run(rows, c).Ok?
    ensures Run(rows + [row], c).Ok? <==> Fits(CensusOf(rows), c, row)
  {
    hide Inv, Shows, Step, Fits, Note;
    assert (rows + [row])[..|rows|] == rows;
    CensusExact(rows, c);
    RunKeeps(rows, c);
    RowFits(CensusOf(rows), Run(rows, c).value, c, row);
  }

  // ---- what the kernels are counted as ----

  /** Call k is a finished launch with the correlation. */
  predicate Launched(w: Census, c: Config, correlation: nat, k: nat) {
    && 1 <= k <= |w.calls| && k in w.finished && c.launch(w.calls[k - 1].symbol)
    && w.calls[k - 1].correlation == correlation
  }

  ghost predicate Unlaunched(w: Census, c: Config, correlation: nat) {
    forall k :: !Launched(w, c, correlation, k)
  }

  /** A launch with no launch of the same correlation anywhere under it. */
  ghost predicate IsLeaf(w: Census, c: Config, correlation: nat, k: nat) {
    Launched(w, c, correlation, k)
    && forall d :: Launched(w, c, correlation, d) ==> !ProperAncestor(w.calls, k, d)
  }

  ghost predicate Carries(w: Census, c: Config, correlation: nat, marker: nat) {
    marker != 0 && exists k :: IsLeaf(w, c, correlation, k) && w.calls[k - 1].marker == marker
  }

  ghost function ClassOf(w: Census, c: Config, kernel: Kernel): Category {
    if Unlaunched(w, c, kernel.correlation) then Uncorrelated
    else if exists m :: Carries(w, c, kernel.correlation, m) then Marked
    else Unmarked
  }

  ghost function OriginOf(w: Census, c: Config, kernel: Kernel): string {
    if Unlaunched(w, c, kernel.correlation) then "unobserved"
    else c.render(set k | 1 <= k <= |w.calls| && Launched(w, c, kernel.correlation, k)
                    :: (w.calls[k - 1].domain, w.calls[k - 1].symbol))
  }

  ghost function KeyOf(w: Census, c: Config, kernel: Kernel): GroupKey {
    GroupKey(kernel.name, OriginOf(w, c, kernel), ClassOf(w, c, kernel))
  }

  /** No leaf launch of the kernel failed, all carry one marker, and the origin is not too long. */
  ghost predicate Attributable(w: Census, c: Config, kernel: Kernel) {
    && (forall k :: IsLeaf(w, c, kernel.correlation, k) ==> k !in w.failures)
    && (forall k, l :: IsLeaf(w, c, kernel.correlation, k) && IsLeaf(w, c, kernel.correlation, l) ==>
          w.calls[k - 1].marker == w.calls[l - 1].marker)
    && |OriginOf(w, c, kernel)| <= 8250
  }

  lemma CandidatesExact(w: Census, s: State, c: Config, correlation: nat)
    requires Shows(w, s)
    ensures forall k: nat :: k in Candidates(s, c, correlation) <==> Launched(w, c, correlation, k)
    ensures Candidates(s, c, correlation) == {} <==> Unlaunched(w, c, correlation)
  {
    forall k: nat ensures k in Candidates(s, c, correlation) <==> Launched(w, c, correlation, k) {
      if Launched(w, c, correlation, k) {
        var i := k - 1;
        assert 0 <= i < |s.apis| && i + 1 !in s.active && c.launch(s.apis[i].symbol);
      }
    }
  }

  lemma LeavesExact(w: Census, s: State, c: Config, correlation: nat)
    requires Shows(w, s)
    ensures forall k: nat :: k in Leaves(s, Candidates(s, c, correlation)) <==> IsLeaf(w, c, correlation, k)
  {
    hide ProperAncestor, Candidates, Launched;
    CandidatesExact(w, s, c, correlation);
  }

  lemma LinksExact(w: Census, s: State, c: Config, kernel: Kernel)
    requires Shows(w, s)
    ensures OriginOf(w, c, kernel) ==
            if Candidates(s, c, kernel.correlation) == {} then "unobserved"
            else c.render(Links(s, Candidates(s, c, kernel.correlation)))
  {
    hide Unlaunched, Launched, Candidates;
    CandidatesExact(w, s, c, kernel.correlation);
    var keys := Candidates(s, c, kernel.correlation);
    var links := set k | 1 <= k <= |w.calls| && Launched(w, c, kernel.correlation, k)
                   :: (w.calls[k - 1].domain, w.calls[k - 1].symbol);
    forall k | k in keys ensures 1 <= k <= |w.calls| { LaunchedCall(w, c, kernel.correlation, k); }
    assert Links(s, keys) == links;
  }

  lemma LaunchedCall(w: Census, c: Config, correlation: nat, k: nat)
    requires Launched(w, c, correlation, k)
    ensures 1 <= k <= |w.calls|
  {
  }

  lemma IdentifyExact(w: Census, s: State, c: Config, kernel: Kernel)
    requires Inv(s, c) && Shows(w, s)
    ensures var ids := Identify(s, Candidates(s, c, kernel.correlation));
            && (ids.Ok? && |OriginOf(w, c, kernel)| <= 8250 <==> Attributable(w, c, kernel))
            && (ids.Ok? ==> forall m: nat :: m in ids.value <==> Carries(w, c, kernel.correlation, m))
  {
    hide Inv, ProperAncestor, Candidates, Launched, OriginOf, Markers, Identify;
    var candidates := Candidates(s, c, kernel.correlation);
    LeavesExact(w, s, c, kernel.correlation);
    CandidatesKnown(s, c, kernel.correlation);
    AttributedExactly(s, c, candidates);
    hide Leaves, IsLeaf;
    LeavesFail(w, s, c, kernel.correlation);
  }

  lemma CandidatesKnown(s: State, c: Config, correlation: nat)
    ensures forall k :: k in Candidates(s, c, correlation) ==> 1 <= k <= |s.apis|
  {
  }

  lemma LeavesFail(w: Census, s: State, c: Config, correlation: nat)
    requires Shows(w, s)
    requires forall k: nat :: k in Leaves(s, Candidates(s, c, correlation)) <==> IsLeaf(w, c, correlation, k)
    ensures Leaves(s, Candidates(s, c, correlation)) * s.failed == {} <==>
            forall k :: IsLeaf(w, c, correlation, k) ==> k !in w.failures
  {
    hide Leaves, IsLeaf, Candidates;
    var both := Leaves(s, Candidates(s, c, correlation)) * s.failed;
    if both == {} {
      forall k | IsLeaf(w, c, correlation, k) ensures k !in w.failures { assert k !in both; }
    }
  }

  /** The kernels among the first n of a category. */
  ghost function KernelsIn(w: Census, c: Config, n: nat, category: Category): set<nat>
    requires n <= |w.kernels|
  {
    set i: nat | i < n && ClassOf(w, c, w.kernels[i]) == category
  }

  /** The kernels among the first n with a name, origin and category. */
  ghost function KernelsWith(w: Census, c: Config, n: nat, key: GroupKey): set<nat>
    requires n <= |w.kernels|
  {
    set i: nat | i < n && KeyOf(w, c, w.kernels[i]) == key
  }

  /** How many kernels the groups list under a key. */
  function Amount(groups: seq<(GroupKey, nat)>, key: GroupKey): nat {
    if groups == [] then 0
    else (if groups[0].0 == key then groups[0].1 else 0) + Amount(groups[1..], key)
  }

  ghost predicate MeansCounts(w: Census, c: Config, n: nat, counts: map<Category, nat>)
    requires n <= |w.kernels|
  {
    forall category :: category in counts ==> counts[category] == |KernelsIn(w, c, n, category)|
  }

  /** One of the first n kernels has a leaf launch with the marker. */
  ghost predicate Observes(w: Census, c: Config, n: nat, marker: nat)
    requires n <= |w.kernels|
  {
    exists i: nat :: i < n && Carries(w, c, w.kernels[i].correlation, marker)
  }

  ghost predicate MeansObserved(w: Census, c: Config, n: nat, observed: set<nat>)
    requires n <= |w.kernels|
  {
    forall m: nat :: m in observed <==> Observes(w, c, n, m)
  }

  ghost predicate MeansGroups(w: Census, c: Config, n: nat, groups: seq<(GroupKey, nat)>)
    requires n <= |w.kernels|
  {
    && (forall key :: Amount(groups, key) == |KernelsWith(w, c, n, key)|)
    && (forall key :: Lists(groups, key) <==> KernelsWith(w, c, n, key) != {})
    && Groups(groups)
  }

  lemma {:induction false} AmountAdded(groups: seq<(GroupKey, nat)>, key: GroupKey, other: GroupKey)
    ensures Amount(AddGroup(groups, key), other) == Amount(groups, other) + if other == key then 1 else 0
  {
    if groups != [] && groups[0].0 != key {
      AmountAdded(groups[1..], key, other);
    }
  }

  lemma OneMoreKernel(w: Census, c: Config, n: nat, category: Category, key: GroupKey)
    requires n < |w.kernels|
    ensures KernelsIn(w, c, n + 1, category) ==
            KernelsIn(w, c, n, category) + if ClassOf(w, c, w.kernels[n]) == category then {n} else {}
    ensures KernelsWith(w, c, n + 1, key) ==
            KernelsWith(w, c, n, key) + if KeyOf(w, c, w.kernels[n]) == key then {n} else {}
    ensures n !in KernelsIn(w, c, n, category) && n !in KernelsWith(w, c, n, key)
  {
    hide ClassOf, KeyOf;
  }

  lemma CountsNext(w: Census, c: Config, n: nat, counts: map<Category, nat>)
    requires n < |w.kernels| && MeansCounts(w, c, n, counts) && ClassOf(w, c, w.kernels[n]) in counts
    ensures var k := ClassOf(w, c, w.kernels[n]); MeansCounts(w, c, n + 1, counts[k := counts[k] + 1])
  {
    hide ClassOf, KeyOf, KernelsIn, KernelsWith;
    var k := ClassOf(w, c, w.kernels[n]);
    forall category | category in counts
      ensures counts[k := counts[k] + 1][category] == |KernelsIn(w, c, n + 1, category)|
    {
      OneMoreKernel(w, c, n, category, KeyOf(w, c, w.kernels[n]));
    }
  }

  lemma ObservedNext(w: Census, c: Config, n: nat, before: set<nat>, after: set<nat>)
    requires n < |w.kernels| && MeansObserved(w, c, n, before)
    requires forall m: nat :: m in after <==> m in before || Carries(w, c, w.kernels[n].correlation, m)
    ensures MeansObserved(w, c, n + 1, after)
  {
    hide Carries;
  }

  lemma GroupsNext(w: Census, c: Config, n: nat, groups: seq<(GroupKey, nat)>)
    requires n < |w.kernels| && MeansGroups(w, c, n, groups)
    ensures MeansGroups(w, c, n + 1, AddGroup(groups, KeyOf(w, c, w.kernels[n])))
  {
    hide ClassOf, KeyOf, KernelsIn, KernelsWith, Groups, Lists;
    var key := KeyOf(w, c, w.kernels[n]);
    AddGroupKeeps(groups, key);
    forall other
      ensures Amount(AddGroup(groups, key), other) == |KernelsWith(w, c, n + 1, other)|
      ensures Lists(AddGroup(groups, key), other) <==> KernelsWith(w, c, n + 1, other) != {}
    {
      AmountAdded(groups, key, other);
      OneMoreKernel(w, c, n, Marked, other);
    }
  }

  lemma ResolveExact(w: Census, s: State, c: Config, n: nat, t: Tally)
    requires Inv(s, c) && Shows(w, s) && n < |w.kernels| && t.counts.Keys == {Marked, Unmarked, Uncorrelated}
    ensures var kernel := w.kernels[n];
            var r := Resolve(s, c, t, kernel);
            && (r.Ok? <==> Attributable(w, c, kernel))
            && (r.Ok? ==>
                  && r.value.counts == t.counts[ClassOf(w, c, kernel) := t.counts[ClassOf(w, c, kernel)] + 1]
                  && r.value.groups == AddGroup(t.groups, KeyOf(w, c, kernel))
                  && forall m: nat ::
                       m in r.value.observed <==> m in t.observed || Carries(w, c, kernel.correlation, m))
  {
    hide Inv, Shows, Identify, Candidates, Links, Unlaunched, Carries, Attributable, OriginOf, AddGroup;
    var kernel := w.kernels[n];
    IdentifyExact(w, s, c, kernel);
    LinksExact(w, s, c, kernel);
    CandidatesExact(w, s, c, kernel.correlation);
    NothingCarried(w, c, kernel.correlation);
    CandidatesKnown(s, c, kernel.correlation);
    var ids := Identify(s, Candidates(s, c, kernel.correlation));
    if ids.Ok? && ids.value != {} {
      var m :| m in ids.value;
      assert Carries(w, c, kernel.correlation, m);
    }
  }

  lemma NothingCarried(w: Census, c: Config, correlation: nat)
    ensures Unlaunched(w, c, correlation) ==> forall m: nat :: !Carries(w, c, correlation, m)
  {
  }

  // ---- the whole analysis ----

  ghost predicate Means(w: Census, c: Config, n: nat, t: Tally)
    requires n <= |w.kernels|
  {
    && t.counts.Keys == {Marked, Unmarked, Uncorrelated}
    && MeansCounts(w, c, n, t.counts) && MeansObserved(w, c, n, t.observed) && MeansGroups(w, c, n, t.groups)
  }

  lemma NothingMeans(w: Census, c: Config)
    ensures Means(w, c, 0, ZERO)
  {
  }

  lemma MeansNext(w: Census, s: State, c: Config, n: nat, t: Tally)
    requires Inv(s, c) && Shows(w, s) && n < |w.kernels| && Means(w, c, n, t)
    requires Resolve(s, c, t, w.kernels[n]).Ok?
    ensures Means(w, c, n + 1, Resolve(s, c, t, w.kernels[n]).value)
  {
    hide Inv, Shows, Resolve, MeansCounts, MeansObserved, MeansGroups, Carries, KeyOf, Attributable, AddGroup;
    ResolveExact(w, s, c, n, t);
    var u := Resolve(s, c, t, w.kernels[n]).value;
    CountsNext(w, c, n, t.counts);
    ObservedNext(w, c, n, t.observed, u.observed);
    GroupsNext(w, c, n, t.groups);
  }

  lemma {:induction false} ResolvedExact(w: Census, s: State, c: Config, n: nat)
    requires Inv(s, c) && Shows(w, s) && n <= |w.kernels| == |s.kernels|
    ensures ResolveAll(s, c, n).Ok? <==> forall i :: 0 <= i < n ==> Attributable(w, c, w.kernels[i])
    ensures ResolveAll(s, c, n).Ok? ==> Means(w, c, n, ResolveAll(s, c, n).value)
  {
    hide Inv, Resolve, Means, Attributable;
    if n == 0 {
      NothingMeans(w, c);
    } else {
      assert s.kernels == w.kernels;
      ResolvedExact(w, s, c, n - 1);
      var before := ResolveAll(s, c, n - 1);
      if before.Ok? {
        ResolveExact(w, s, c, n - 1, before.value);
        if Resolve(s, c, before.value, w.kernels[n - 1]).Ok? { MeansNext(w, s, c, n - 1, before.value); }
      }
    }
  }

  /** The distinct names, origins and categories of the kernels. */
  ghost function Keys(w: Census, c: Config): set<GroupKey> {
    set i | 0 <= i < |w.kernels| :: KeyOf(w, c, w.kernels[i])
  }

  lemma {:induction false} KeysListed(groups: seq<(GroupKey, nat)>, keys: set<GroupKey>)
    requires Groups(groups) && forall key :: key in keys <==> Lists(groups, key)
    ensures |groups| == |keys|
  {
    if groups == [] {
      assert keys == {};
    } else {
      var rest := groups[1..];
      assert groups == [groups[0]] + rest;
      GroupsCons(groups[0], rest);
      ListsCons(groups[0], rest);
      hide Groups, Lists;
      KeysListed(rest, keys - {groups[0].0});
      assert keys == keys - {groups[0].0} + {groups[0].0};
    }
  }

  lemma GroupCount(w: Census, c: Config, t: Tally)
    requires Means(w, c, |w.kernels|, t)
    ensures |t.groups| == |Keys(w, c)|
  {
    hide MeansCounts, MeansObserved, KeyOf, Lists, Groups;
    forall key ensures key in Keys(w, c) <==> Lists(t.groups, key) {
      if key in Keys(w, c) {
        var i :| 0 <= i < |w.kernels| && KeyOf(w, c, w.kernels[i]) == key;
        assert i in KernelsWith(w, c, |w.kernels|, key);
      }
      if KernelsWith(w, c, |w.kernels|, key) != {} {
        var i :| i in KernelsWith(w, c, |w.kernels|, key);
        assert KeyOf(w, c, w.kernels[i]) in Keys(w, c);
      }
    }
    KeysListed(t.groups, Keys(w, c));
  }

  lemma {:induction false} AmountListed(groups: seq<(GroupKey, nat)>, i: nat)
    requires Groups(groups) && i < |groups|
    ensures Amount(groups, groups[i].0) == groups[i].1
  {
    var rest := groups[1..];
    assert groups == [groups[0]] + rest;
    GroupsCons(groups[0], rest);
    if i > 0 {
      AmountListed(rest, i - 1);
    } else {
      AmountNone(rest, groups[0].0);
    }
  }

  lemma {:induction false} AmountNone(groups: seq<(GroupKey, nat)>, key: GroupKey)
    requires !Lists(groups, key)
    ensures Amount(groups, key) == 0
  {
    if groups != [] {
      assert groups == [groups[0]] + groups[1..];
      ListsCons(groups[0], groups[1..]);
      AmountNone(groups[1..], key);
    }
  }

  /** What the analysis needs beyond an accepted trace. */
  ghost predicate Countable(w: Census, c: Config) {
    && w.summary.Some? && w.summary.value.errors == 0 && w.summary.value.dropped == 0 && w.kernels != []
    && (forall i :: 0 <= i < |w.kernels| ==> Attributable(w, c, w.kernels[i]))
    && |Keys(w, c)| <= 4096
  }

  /** What the result of an analysis says: every category counts its kernels, exactly the
      non-zero markers of leaf launches are observed, and the groups list each name, origin and
      category that occurs once, with the number of its kernels. */
  ghost predicate Reports(w: Census, c: Config, t: Tally) {
    var n := |w.kernels|;
    && t.counts.Keys == {Marked, Unmarked, Uncorrelated}
    && (forall category :: category in t.counts ==> t.counts[category] == |KernelsIn(w, c, n, category)|)
    && (forall m: nat :: m in t.observed <==> Observes(w, c, n, m))
    && (forall i, j :: 0 <= i < j < |t.groups| ==> t.groups[i].0 != t.groups[j].0)
    && (forall i :: 0 <= i < |t.groups| ==> t.groups[i].1 == |KernelsWith(w, c, n, t.groups[i].0)| > 0)
    && (forall j :: 0 <= j < n ==> Lists(t.groups, KeyOf(w, c, w.kernels[j])))
  }

  lemma MeansReports(w: Census, c: Config, t: Tally)
    requires Means(w, c, |w.kernels|, t)
    ensures Reports(w, c, t)
  {
    hide KeyOf, ClassOf, Observes, Lists;
    var n := |w.kernels|;
    forall i | 0 <= i < |t.groups| ensures t.groups[i].1 == |KernelsWith(w, c, n, t.groups[i].0)| > 0 {
      AmountListed(t.groups, i);
    }
    forall j | 0 <= j < n ensures Lists(t.groups, KeyOf(w, c, w.kernels[j])) {
      assert j in KernelsWith(w, c, n, KeyOf(w, c, w.kernels[j]));
    }
  }

  /** An analysis succeeds exactly when the trace is accepted and complete, every kernel can be
      attributed and the names, origins and categories are not too many; its result then means
      what it says. */
  lemma AnalysisExact(rows: seq<Row>, c: Config)
    ensures Analysis(rows, c).Ok? <==> Run(rows, c).Ok? && Countable(CensusOf(rows), c)
    ensures Analysis(rows, c).Ok? ==> Reports(CensusOf(rows), c, Analysis(rows, c).value)
  {
    hide Inv, Shows, Means, Reports, Attributable, Keys, CensusOf, Run, ResolveAll;
    if Run(rows, c).Ok? {
      var w, s := CensusOf(rows), Run(rows, c).value;
      CensusExact(rows, c);
      RunKeeps(rows, c);
      ShowsKernels(w, s);
      ResolvedExact(w, s, c, |w.kernels|);
      if ResolveAll(s, c, |s.kernels|).Ok? {
        GroupCount(w, c, ResolveAll(s, c, |s.kernels|).value);
        MeansReports(w, c, ResolveAll(s, c, |s.kernels|).value);
      }
    }
  }

  lemma ShowsKernels(w: Census, s: State)
    requires Shows(w, s)
    ensures s.kernels == w.kernels && s.summary == w.summary
  {
  }

  ghost predicate AllFit(rows: seq<Row>, c: Config) {
    forall n :: 0 <= n < |rows| ==> Fits(CensusOf(rows[..n]), c, rows[n])
  }

  /** A trace is accepted exactly when each of its records fits the records before. */
  lemma {:induction false} TraceExact(rows: seq<Row>, c: Config)
    ensures Run(rows, c).Ok? <==> AllFit(rows, c)
  {
    hide Fits, CensusOf, Step;
    if rows != [] {
      var n := |rows| - 1;
      var init := rows[..n];
      assert rows == init + [rows[n]];
      TraceExact(init, c);
      forall m | 0 <= m < n ensures rows[..m] == init[..m] && rows[m] == init[m] {
      }
      if Run(init, c).Ok? { RecordExact(init, c, rows[n]); }
      if AllFit(rows, c) {
        forall m | 0 <= m < n ensures Fits(CensusOf(init[..m]), c, init[m]) {
          assert Fits(CensusOf(rows[..m]), c, rows[m]);
        }
      }
    }
  }
}
