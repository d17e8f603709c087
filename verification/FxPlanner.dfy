/** The loops of python/xvram/fx.py that build a next-use plan, proved to build the right one. */
module FxPlanner {
  import opened Options
  import opened Sorting
  import opened FxModel

  // ---- use lists ----

  /** The first n steps that read v, in order. */
  function UsesBelow(g: seq<Node>, v: nat, n: nat): (uses: seq<nat>)
    requires n <= |g|
    ensures forall i: nat :: i in uses <==> i < n && Reads(g, i, v)
  {
    if n == 0 then []
    else if v in g[n - 1].inputs then UsesBelow(g, v, n - 1) + [n - 1] else UsesBelow(g, v, n - 1)
  }

  lemma {:induction false} UsesAscend(g: seq<Node>, v: nat, n: nat)
    requires n <= |g|
    ensures Ascending(UsesBelow(g, v, n))
  {
    if n > 0 {
      UsesAscend(g, v, n - 1);
      var before := UsesBelow(g, v, n - 1);
      forall k | 0 <= k < |before| ensures before[k] < n - 1 {
        assert before[k] in before;
      }
    }
  }

  /** Where x would go to stay after every element that is not larger. */
  function BisectRight(s: seq<nat>, x: nat): (p: nat)
    requires Ascending(s)
    ensures p <= |s| && forall i :: 0 <= i < |s| ==> (i < p <==> s[i] <= x)
  {
    if s == [] || s[0] > x then 0
    else
      assert forall i, j :: 0 <= i < j < |s[1..]| ==> s[1..][i] < s[1..][j];
      1 + BisectRight(s[1..], x)
  }

  /** The first use strictly after a step. */
  function NextUseAfter(uses: seq<nat>, index: nat): (r: Option<nat>)
    requires Ascending(uses)
    ensures r.None? ==> forall u :: u in uses ==> u <= index
    ensures r.Some? ==> r.value in uses && index < r.value && forall u :: u in uses ==> u <= index || r.value <= u
  {
    var p := BisectRight(uses, index);
    if p == |uses| then None else Some(uses[p])
  }

  function IsRelease(value: Value, index: nat): bool {
    Computed(value.op) && !value.escapes && value.uses != [] && value.uses[|value.uses| - 1] == index
  }

  function IsDead(value: Value): bool {
    Computed(value.op) && !value.escapes && value.uses == []
  }

  ghost predicate ValueRight(g: seq<Node>, v: nat, value: Value) {
    && v < |g| && value.name == g[v].name && value.producer == v && value.op == g[v].op
    && value.uses == UsesBelow(g, v, |g|) && (value.escapes <==> Escapes(g, v))
  }

  lemma ValueUses(g: seq<Node>, v: nat, value: Value)
    requires ValueRight(g, v, value)
    ensures UsesRight(g, v, value)
  {
    UsesAscend(g, v, |g|);
  }

  /** The two release tests together say when a value dies. */
  lemma ReleaseTestsExact(g: seq<Node>, v: nat, value: Value, index: nat)
    requires ValueRight(g, v, value) && index < |g|
    ensures DiesAt(g, v, index) <==> IsRelease(value, index) || (index == v && IsDead(value))
  {
    UsesAscend(g, v, |g|);
    if value.uses != [] {
      var last := value.uses[|value.uses| - 1];
      assert last in value.uses;
      assert Reads(g, last, v);
      forall j: nat | Reads(g, j, v) ensures j <= last {
        assert j in value.uses;
      }
    }
  }

  lemma NextUseExact(g: seq<Node>, v: nat, value: Value, index: nat)
    requires ValueRight(g, v, value) && Reads(g, index, v)
    ensures Ascending(value.uses)
    ensures match NextUseAfter(value.uses, index)
            case None => LastRead(g, index, v)
            case Some(j) => FirstReadAfter(g, index, j, v)
  {
    UsesAscend(g, v, |g|);
    forall j: nat | Reads(g, j, v) ensures j in value.uses {
    }
  }

  // ---- reading the graph ----

  method CheckNodes(g: seq<Node>) returns (fault: Option<Fault>)
    ensures fault.None? <==> Named(g)
  {
    var seen: set<string> := {};
    for n := 0 to |g|
      invariant forall name :: name in seen <==> exists i :: 0 <= i < n && g[i].name == name
      invariant forall i :: 0 <= i < n ==> g[i].name != "" && g[i].op != ""
      invariant forall i, j :: 0 <= i < j < n ==> g[i].name != g[j].name
    {
      if g[n].name == "" { return Some(EmptyName); }
      if g[n].name in seen { return Some(DuplicateName); }
      if g[n].op == "" { return Some(EmptyOperation); }
      seen := seen + {g[n].name};
    }
    return None;
  }

  /** One consumer: its sources in order without repetition, and its entry in their user lists. */
  method ScanNode(g: seq<Node>, consumer: nat, before: seq<seq<nat>>)
    returns (fault: Option<Fault>, sources: seq<nat>, users: seq<seq<nat>>)
    requires consumer < |g| == |before|
    ensures fault.None? <==> forall v :: v in g[consumer].inputs ==> v < consumer
    ensures fault.None? ==>
              && Ascending(sources) && (forall v :: v in sources <==> v in g[consumer].inputs)
              && |users| == |g|
              && forall v: nat :: v < |g| ==>
                   users[v] == before[v] + if v in g[consumer].inputs then [consumer] else []
  {
    var inputs, found: seq<nat> := g[consumer].inputs, [];
    users, sources := before, [];
    for k := 0 to |inputs|
      invariant |users| == |g| && Distinct(found)
      invariant forall v :: v in found <==> v in inputs[..k]
      invariant forall v :: v in inputs[..k] ==> v < consumer
      invariant forall v: nat :: v < |g| ==> users[v] == before[v] + if v in found then [consumer] else []
    {
      assert inputs[..k + 1] == inputs[..k] + [inputs[k]];
      assert inputs[k] in inputs;
      if inputs[k] >= |g| { return Some(OutsideGraph), [], users; }
      if inputs[k] >= consumer { return Some(NotTopological), [], users; }
      if inputs[k] !in found {
        found := found + [inputs[k]];
        users := users[inputs[k] := users[inputs[k]] + [consumer]];
      }
    }
    assert inputs[..|inputs|] == inputs;
    sources := Sort(found, NatLe);
    OrdersAreTotal();
    SortKeeps(found, NatLe);
    SortDistinct(found, NatLe);
    fault := None;
  }

  ghost predicate InputsRight(g: seq<Node>, inputs: seq<seq<nat>>, n: nat)
    requires n <= |g|
  {
    |inputs| == n
    && forall i :: 0 <= i < n ==> Ascending(inputs[i]) && forall v :: v in inputs[i] <==> v in g[i].inputs
  }

  method ScanGraph(g: seq<Node>) returns (fault: Option<Fault>, inputs: seq<seq<nat>>, users: seq<seq<nat>>)
    ensures fault.None? <==> Topological(g)
    ensures fault.None? ==> InputsRight(g, inputs, |g|)
    ensures fault.None? ==> |users| == |g| && forall v: nat :: v < |g| ==> users[v] == UsesBelow(g, v, |g|)
  {
    inputs, users := [], seq(|g|, _ => []);
    for n := 0 to |g|
      invariant InputsRight(g, inputs, n)
      invariant |users| == |g| && forall v: nat :: v < |g| ==> users[v] == UsesBelow(g, v, n)
      invariant forall i, v :: 0 <= i < n && v in g[i].inputs ==> v < i
    {
      var sources;
      fault, sources, users := ScanNode(g, n, users);
      if fault.Some? { return; }
      inputs := inputs + [sources];
    }
    fault := None;
  }

  method MakeValues(g: seq<Node>, inputs: seq<seq<nat>>, users: seq<seq<nat>>) returns (values: seq<Value>)
    requires InputsRight(g, inputs, |g|)
    requires |users| == |g| && forall v: nat :: v < |g| ==> users[v] == UsesBelow(g, v, |g|)
    ensures |values| == |g| && forall v: nat :: v < |g| ==> ValueRight(g, v, values[v])
  {
    var escaped := set i, k | 0 <= i < |g| && g[i].op == "output" && 0 <= k < |inputs[i]| :: inputs[i][k];
    values := [];
    for v := 0 to |g|
      invariant |values| == v
      invariant forall w: nat :: w < v ==> ValueRight(g, w, values[w])
    {
      EscapedExact(g, inputs, escaped, v);
      values := values + [Value(g[v].name, v, g[v].op, users[v], v in escaped)];
    }
  }

  lemma EscapedExact(g: seq<Node>, inputs: seq<seq<nat>>, escaped: set<nat>, v: nat)
    requires InputsRight(g, inputs, |g|)
    requires escaped == set i, k | 0 <= i < |g| && g[i].op == "output" && 0 <= k < |inputs[i]| :: inputs[i][k]
    ensures v in escaped <==> Escapes(g, v)
  {
    if Escapes(g, v) {
      var i: nat :| i < |g| && g[i].op == "output" && Reads(g, i, v);
      assert v in inputs[i];
      var k :| 0 <= k < |inputs[i]| && inputs[i][k] == v;
    }
    if v in escaped {
      var i, k :| 0 <= i < |g| && g[i].op == "output" && 0 <= k < |inputs[i]| && inputs[i][k] == v;
      assert v in inputs[i];
      assert Reads(g, i, v);
    }
  }

  // ---- prefetching ----

  datatype Candidate = Candidate(name: string, use: nat)

  predicate SoonerLe(x: Candidate, y: Candidate) {
    x.use < y.use || (x.use == y.use && StringLe(x.name, y.name))
  }

  lemma SoonerIsTotal()
    ensures TotalOrder(SoonerLe)
  {
    forall x, y ensures SoonerLe(x, y) || SoonerLe(y, x) {
      StringLeTotal(x.name, y.name);
    }
    forall x, y, z | SoonerLe(x, y) && SoonerLe(y, z) ensures SoonerLe(x, z) {
      if x.use == z.use { StringLeTransitive(x.name, y.name, z.name); }
    }
  }

  predicate HasName(candidates: seq<Candidate>, name: string) {
    exists c :: c in candidates && c.name == name
  }

  /** A candidate of step i: the value v and its first use after i. */
  ghost predicate Stands(g: seq<Node>, i: nat, c: Candidate, v: nat) {
    v < i && v < |g| && c.name == g[v].name && FirstReadAfter(g, i, c.use, v)
  }

  /** Some step after i and before the bound reads v. */
  ghost predicate ReadWithin(g: seq<Node>, i: nat, bound: nat, v: nat) {
    exists j: nat :: i < j < bound && Reads(g, j, v)
  }

  /** The candidates are the earlier values read after i and before the bound. */
  ghost predicate Gathered(g: seq<Node>, i: nat, bound: nat, candidates: seq<Candidate>) {
    && (forall k, l :: 0 <= k < l < |candidates| ==> candidates[k].name != candidates[l].name)
    && (forall c :: c in candidates ==> exists v: nat :: Stands(g, i, c, v))
    && (forall v: nat :: v < i && v < |g| ==> (HasName(candidates, g[v].name) <==> ReadWithin(g, i, bound, v)))
  }

  lemma GatheredNone(g: seq<Node>, i: nat)
    ensures Gathered(g, i, i + 1, [])
  {
  }

  /** The sources of one future step, first uses only. */
  method AddFuture(g: seq<Node>, i: nat, future: nat, sources: seq<nat>, before: seq<Candidate>)
    returns (candidates: seq<Candidate>)
    requires Named(g) && Topological(g) && i < future < |g| && forall v :: v in sources <==> v in g[future].inputs
    requires Gathered(g, i, future, before)
    ensures Gathered(g, i, future + 1, candidates)
  {
    candidates := before;
    for k := 0 to |sources|
      invariant forall a, b :: 0 <= a < b < |candidates| ==> candidates[a].name != candidates[b].name
      invariant forall c :: c in candidates ==> exists v: nat :: Stands(g, i, c, v)
      invariant forall v: nat :: v < i && v < |g| ==>
                  (HasName(candidates, g[v].name) <==> ReadWithin(g, i, future, v) || v in sources[..k])
    {
      var source := sources[k];
      assert source in sources && Reads(g, future, source);
      assert sources[..k + 1] == sources[..k] + [source];
      if source < i && !HasName(candidates, g[source].name) {
        NewCandidate(g, i, future, source);
        AppendName(candidates, Candidate(g[source].name, future));
        candidates := candidates + [Candidate(g[source].name, future)];
      }
    }
    assert sources[..|sources|] == sources;
    forall v: nat ensures ReadWithin(g, i, future + 1, v) <==> ReadWithin(g, i, future, v) || Reads(g, future, v) {
      if Reads(g, future, v) { assert ReadWithin(g, i, future + 1, v); }
    }
  }

  lemma NewCandidate(g: seq<Node>, i: nat, future: nat, v: nat)
    requires v < i < future < |g| && Reads(g, future, v) && !ReadWithin(g, i, future, v)
    ensures Stands(g, i, Candidate(g[v].name, future), v)
  {
  }

  lemma AppendName(candidates: seq<Candidate>, c: Candidate)
    ensures forall name :: HasName(candidates + [c], name) <==> HasName(candidates, name) || name == c.name
  {
    forall name ensures HasName(candidates + [c], name) <==> HasName(candidates, name) || name == c.name {
      if name == c.name { assert c in candidates + [c]; }
    }
  }

  /** Candidates by first use and then name, each name once. */
  ghost predicate Ranked(g: seq<Node>, i: nat, ranked: seq<Candidate>) {
    && (forall k, l :: 0 <= k < l < |ranked| ==> SoonerLe(ranked[k], ranked[l]) && ranked[k].name != ranked[l].name)
    && (forall c :: c in ranked ==> exists v: nat :: Stands(g, i, c, v))
  }

  lemma SortRanks(g: seq<Node>, i: nat, bound: nat, candidates: seq<Candidate>)
    requires Gathered(g, i, bound, candidates)
    ensures Ranked(g, i, Sort(candidates, SoonerLe))
    ensures forall c :: c in Sort(candidates, SoonerLe) <==> c in candidates
  {
    var ranked := Sort(candidates, SoonerLe);
    SoonerIsTotal();
    SortKeeps(candidates, SoonerLe);
    SortDistinct(candidates, SoonerLe);
    forall k, l | 0 <= k < l < |ranked|
      ensures SoonerLe(ranked[k], ranked[l]) && ranked[k].name != ranked[l].name
    {
      assert ranked[k] in candidates && ranked[l] in candidates && ranked[k] != ranked[l];
    }
  }

  lemma SameStand(g: seq<Node>, i: nat, c: Candidate, v: nat, w: nat)
    requires Named(g) && Stands(g, i, c, v) && w < |g| && g[w].name == c.name
    ensures v == w
  {
  }

  lemma FirstReadIsOne(g: seq<Node>, i: nat, j: nat, k: nat, v: nat)
    requires FirstReadAfter(g, i, j, v) && FirstReadAfter(g, i, k, v)
    ensures j == k
  {
  }

  /** Ranked candidates name their values in the promised order. */
  lemma RankedOrder(g: seq<Node>, i: nat, ranked: seq<Candidate>, k: nat, l: nat, v: nat, w: nat)
    requires Named(g) && Ranked(g, i, ranked) && k < l < |ranked| && v < |g| && w < |g|
    requires ranked[k].name == g[v].name && ranked[l].name == g[w].name
    ensures SoonerOrNamed(g, i, v, w)
  {
    assert ranked[k] in ranked && ranked[l] in ranked;
    var a: nat :| Stands(g, i, ranked[k], a);
    var b: nat :| Stands(g, i, ranked[l], b);
    SameStand(g, i, ranked[k], a, v);
    SameStand(g, i, ranked[l], b, w);
    forall x: nat, y: nat | FirstReadAfter(g, i, x, v) && FirstReadAfter(g, i, y, w)
      ensures x < y || (x == y && StringLe(g[v].name, g[w].name) && g[v].name != g[w].name)
    {
      FirstReadIsOne(g, i, x, ranked[k].use, v);
      FirstReadIsOne(g, i, y, ranked[l].use, w);
    }
  }

  method GatherCandidates(g: seq<Node>, inputs: seq<seq<nat>>, i: nat, bound: nat) returns (candidates: seq<Candidate>)
    requires Named(g) && Topological(g) && InputsRight(g, inputs, |g|) && i < bound <= |g|
    ensures Gathered(g, i, bound, candidates)
  {
    hide Gathered, Topological, Named;
    candidates := [];
    GatheredNone(g, i);
    for future := i + 1 to bound
      invariant Gathered(g, i, future, candidates)
    {
      candidates := AddFuture(g, i, future, inputs[future], candidates);
    }
  }

  method PrefetchNames(g: seq<Node>, inputs: seq<seq<nat>>, i: nat, distance: nat, current: set<string>)
    returns (names: seq<string>)
    requires Named(g) && Topological(g) && InputsRight(g, inputs, |g|) && i < |g|
    requires forall name :: name in current <==> exists v: nat :: v < |g| && Reads(g, i, v) && g[v].name == name
    ensures PrefetchesRight(g, distance, i, names)
  {
    names := [];
    if distance == 0 { return; }
    var bound := if |g| <= i + distance + 1 then |g| else i + distance + 1;
    var candidates := GatherCandidates(g, inputs, i, bound);
    var ranked := Sort(candidates, SoonerLe);
    SortRanks(g, i, bound, candidates);
    hide Stands, Gathered, SoonerLe, Reads;
    ghost var kept: seq<Candidate> := [];
    for n := 0 to |ranked|
      invariant |kept| == |names| && forall k :: 0 <= k < |names| ==> names[k] == kept[k].name
      invariant Ranked(g, i, kept)
      invariant forall c :: c in kept <==> c in ranked[..n] && c.name !in current
    {
      assert ranked[..n + 1] == ranked[..n] + [ranked[n]];
      if ranked[n].name !in current {
        RankedAppend(g, i, ranked, n, kept);
        names, kept := names + [ranked[n].name], kept + [ranked[n]];
      }
    }
    assert ranked[..|ranked|] == ranked;
    FilteredRight(g, i, distance, bound, candidates, current, kept, names);
  }

  lemma RankedAppend(g: seq<Node>, i: nat, ranked: seq<Candidate>, n: nat, kept: seq<Candidate>)
    requires Ranked(g, i, ranked) && Ranked(g, i, kept) && n < |ranked| && forall c :: c in kept ==> c in ranked[..n]
    ensures Ranked(g, i, kept + [ranked[n]])
  {
    var longer := kept + [ranked[n]];
    forall k, l | 0 <= k < l < |longer| ensures SoonerLe(longer[k], longer[l]) && longer[k].name != longer[l].name {
      if l == |kept| {
        assert kept[k] in ranked[..n];
        var m :| 0 <= m < n && ranked[m] == kept[k];
      }
    }
    assert ranked[n] in ranked;
  }

  lemma FilteredRight(g: seq<Node>, i: nat, distance: nat, bound: nat, candidates: seq<Candidate>,
                      current: set<string>, kept: seq<Candidate>, names: seq<string>)
    requires Named(g) && Gathered(g, i, bound, candidates) && Ranked(g, i, kept) && i < |g|
    requires bound == if |g| <= i + distance + 1 then |g| else i + distance + 1
    requires forall name :: name in current <==> exists v: nat :: v < |g| && Reads(g, i, v) && g[v].name == name
    requires forall c :: c in kept <==> c in candidates && c.name !in current
    requires |kept| == |names| && forall k :: 0 <= k < |names| ==> names[k] == kept[k].name
    ensures PrefetchesRight(g, distance, i, names)
  {
    forall v: nat | v < |g| ensures g[v].name in current <==> Reads(g, i, v) {
      CurrentExact(g, i, current, v);
    }
    forall v: nat ensures WantedSoon(g, distance, v, i) <==> v < i && !Reads(g, i, v) && ReadWithin(g, i, bound, v) {
    }
    forall v: nat | v < |g| && WantedSoon(g, distance, v, i) ensures g[v].name in names {
      assert HasName(candidates, g[v].name);
      var c :| c in candidates && c.name == g[v].name;
      assert c in kept;
      var k :| 0 <= k < |kept| && kept[k] == c;
      assert names[k] == g[v].name;
    }
    forall name | name in names ensures exists v: nat :: v < |g| && WantedSoon(g, distance, v, i) && g[v].name == name {
      var k :| 0 <= k < |names| && names[k] == name;
      assert kept[k] in kept;
      var v: nat :| Stands(g, i, kept[k], v);
      assert kept[k] in candidates && kept[k].name == g[v].name;
      assert HasName(candidates, g[v].name);
    }
    forall k, l, v: nat, w: nat
      | 0 <= k < l < |names| && v < |g| && w < |g| && names[k] == g[v].name && names[l] == g[w].name
      ensures SoonerOrNamed(g, i, v, w)
    {
      RankedOrder(g, i, kept, k, l, v, w);
    }
  }

  lemma CurrentExact(g: seq<Node>, i: nat, current: set<string>, v: nat)
    requires Named(g) && v < |g|
    requires forall name :: name in current <==> exists w: nat :: w < |g| && Reads(g, i, w) && g[w].name == name
    ensures g[v].name in current <==> Reads(g, i, v)
  {
    if g[v].name in current {
      var w: nat :| w < |g| && Reads(g, i, w) && g[w].name == g[v].name;
      NamesApart(g, v, w);
    }
  }

  // ---- one step ----

  /** The read hints of a step. */
  method MakeHints(g: seq<Node>, values: seq<Value>, sources: seq<nat>, i: nat)
    returns (hints: seq<ReadHint>, current: set<string>)
    requires Named(g) && Topological(g) && i < |g| && Ascending(sources)
    requires forall v :: v in sources <==> v in g[i].inputs
    requires |values| == |g| && forall v: nat :: v < |g| ==> ValueRight(g, v, values[v])
    ensures ReadsRight(g, i, hints)
    ensures forall name :: name in current <==> exists v: nat :: v < |g| && Reads(g, i, v) && g[v].name == name
  {
    hints, current := [], {};
    for k := 0 to |sources|
      invariant |hints| == k
      invariant forall l :: 0 <= l < k ==>
                  sources[l] < i && hints[l].name == g[sources[l]].name && HintRight(g, i, hints[l], sources[l])
      invariant forall name :: name in current <==> exists l :: 0 <= l < k && hints[l].name == name
    {
      var source := sources[k];
      assert source in sources && Reads(g, i, source);
      NextUseExact(g, source, values[source], i);
      hints := hints + [ReadHint(values[source].name, NextUseAfter(values[source].uses, i))];
      current := current + {values[source].name};
    }
    HintsRight(g, i, sources, hints);
    forall name ensures name in current <==> exists v: nat :: v < |g| && Reads(g, i, v) && g[v].name == name {
      if name in current {
        var l :| 0 <= l < |hints| && hints[l].name == name;
        assert sources[l] in sources && Reads(g, i, sources[l]);
      }
      if v: nat :| v < |g| && Reads(g, i, v) && g[v].name == name {
        var k :| 0 <= k < |hints| && hints[k].name == g[v].name;
      }
    }
  }

  ghost predicate HintRight(g: seq<Node>, i: nat, hint: ReadHint, v: nat) {
    match hint.nextUse
    case None => LastRead(g, i, v)
    case Some(j) => FirstReadAfter(g, i, j, v)
  }

  lemma HintsRight(g: seq<Node>, i: nat, sources: seq<nat>, hints: seq<ReadHint>)
    requires Named(g) && Topological(g) && i < |g| && Ascending(sources) && |hints| == |sources|
    requires forall v :: v in sources <==> v in g[i].inputs
    requires forall l :: 0 <= l < |hints| ==>
               sources[l] < i && hints[l].name == g[sources[l]].name && HintRight(g, i, hints[l], sources[l])
    ensures ReadsRight(g, i, hints)
  {
    forall v: nat
      ensures Reads(g, i, v) <==> v < |g| && exists k :: 0 <= k < |hints| && hints[k].name == g[v].name
    {
      if Reads(g, i, v) {
        var k :| 0 <= k < |sources| && sources[k] == v;
        assert hints[k].name == g[v].name;
      }
      if k :| v < |g| && 0 <= k < |hints| && hints[k].name == g[v].name {
        NamesApart(g, v, sources[k]);
        assert sources[k] in sources;
      }
    }
    forall k, v: nat | 0 <= k < |hints| && v < |g| && hints[k].name == g[v].name
      ensures HintRight(g, i, hints[k], v)
    {
      NamesApart(g, v, sources[k]);
    }
  }

  /** The names released by a step, sorted. */
  method MakeReleases(g: seq<Node>, values: seq<Value>, sources: seq<nat>, i: nat) returns (releases: seq<string>)
    requires Named(g) && Topological(g) && i < |g| && Ascending(sources)
    requires forall v :: v in sources <==> v in g[i].inputs
    requires |values| == |g| && forall v: nat :: v < |g| ==> ValueRight(g, v, values[v])
    ensures ReleasesRight(g, i, releases)
  {
    var found: seq<string> := [];
    ghost var who: seq<nat> := [];
    ReleaseTestsExact(g, i, values[i], i);
    if IsDead(values[i]) { found, who := [values[i].name], [i]; }
    ghost var own := who;
    for k := 0 to |sources|
      invariant |who| == |found| && Distinct(who)
      invariant forall l :: 0 <= l < |who| ==> who[l] < |g| && found[l] == g[who[l]].name
      invariant forall v :: v in who <==> v in own || (v in sources[..k] && v < |g| && DiesAt(g, v, i))
    {
      var source := sources[k];
      assert source in sources && sources[..k + 1] == sources[..k] + [source];
      assert source !in sources[..k];
      ReleaseTestsExact(g, source, values[source], i);
      if IsRelease(values[source], i) { found, who := found + [values[source].name], who + [source]; }
    }
    assert sources[..|sources|] == sources;
    AllDeathsFound(g, values, sources, i, own, who);
    ReleasesSorted(g, i, who, found);
    releases := Sort(found, StringLe);
  }

  lemma AllDeathsFound(g: seq<Node>, values: seq<Value>, sources: seq<nat>, i: nat, own: seq<nat>, who: seq<nat>)
    requires i < |g| == |values| && forall v :: v in sources <==> v in g[i].inputs
    requires forall v: nat :: v < |g| ==> ValueRight(g, v, values[v])
    requires own == if IsDead(values[i]) then [i] else []
    requires forall v :: v in who <==> v in own || (v in sources && v < |g| && DiesAt(g, v, i))
    ensures forall v: nat :: v in who <==> DiesAt(g, v, i)
  {
    forall v: nat ensures v in who <==> DiesAt(g, v, i) {
      if v < |g| { ReleaseTestsExact(g, v, values[v], i); }
    }
  }

  lemma ReleasesSorted(g: seq<Node>, i: nat, who: seq<nat>, found: seq<string>)
    requires Named(g) && |who| == |found| && Distinct(who)
    requires forall l :: 0 <= l < |who| ==> who[l] < |g| && found[l] == g[who[l]].name
    requires forall v: nat :: v in who <==> DiesAt(g, v, i)
    ensures ReleasesRight(g, i, Sort(found, StringLe))
  {
    OrdersAreTotal();
    SortKeeps(found, StringLe);
    forall k, l | 0 <= k < l < |found| ensures found[k] != found[l] {
      if found[k] == found[l] { NamesApart(g, who[k], who[l]); }
    }
    SortDistinct(found, StringLe);
    forall name ensures name in found <==> exists v: nat :: DiesAt(g, v, i) && g[v].name == name {
      if name in found {
        var l :| 0 <= l < |found| && found[l] == name;
        assert who[l] in who;
      }
      if v: nat :| DiesAt(g, v, i) && g[v].name == name {
        var l :| 0 <= l < |who| && who[l] == v;
        assert found[l] == name;
      }
    }
  }

  // ---- the whole analysis ----

  /** A graph is accepted exactly when its names are distinct and not empty, every input is an
      earlier node, and the distance is at most eight; its plan is then the right one. */
  method AnalyzeNextUses(g: seq<Node>, distance: nat) returns (r: Outcome<Plan>)
    ensures r.Ok? <==> distance <= 8 && Named(g) && Topological(g)
    ensures r.Ok? ==> PlanRight(g, distance, r.value)
  {
    if distance > 8 { return Fail(BadDistance); }
    var fault := CheckNodes(g);
    if fault.Some? { return Fail(fault.value); }
    var inputs, users;
    fault, inputs, users := ScanGraph(g);
    if fault.Some? { return Fail(fault.value); }
    var values := MakeValues(g, inputs, users);
    var steps: seq<StepPlan> := [];
    hide Named, Topological, ReadsRight, ReleasesRight, PrefetchesRight, ValueRight, UsesRight, UsesBelow, Reads;
    for i := 0 to |g|
      invariant |steps| == i && forall k: nat :: k < i ==> StepRight(g, distance, k, steps[k])
    {
      var hints, current := MakeHints(g, values, inputs[i], i);
      var releases := MakeReleases(g, values, inputs[i], i);
      var prefetches := PrefetchNames(g, inputs, i, distance, current);
      steps := steps + [StepPlan(i, g[i].name, g[i].op, hints, releases, prefetches)];
    }
    forall v: nat | v < |g| ensures UsesRight(g, v, values[v]) {
      ValueUses(g, v, values[v]);
    }
    r := Ok(Plan(values, steps, distance));
  }
}
