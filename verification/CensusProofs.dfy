/** The API calls of an accepted census form a forest, and its counts always reconcile. */
module CensusProofs {
  import opened Cardinality
  import opened Options
  import opened LaunchCensus

  // ---- the call tables ----

  /** The parent comes before the call, and the depth counts the calls up to the root. */
  predicate RootedAt(s: State, c: Config, i: nat)
    requires |s.depths| == |s.apis|
  {
    i < |s.apis| ==>
      && s.apis[i].parent <= i && s.depths[i] == DepthOf(s.depths, s.apis[i].parent) + 1 <= MAX_DEPTH
      && s.apis[i].marker <= c.probeCalls
  }

  ghost predicate Rooted(s: State, c: Config) {
    |s.depths| == |s.apis| && forall i: nat {:trigger RootedAt(s, c, i)} :: RootedAt(s, c, i)
  }

  /** The open calls, with every open call's parent open. */
  ghost predicate OpenCalls(s: State) {
    && (forall k :: k in s.active ==> 1 <= k <= |s.apis| && s.active[k] == s.apis[k - 1])
    && (forall k :: k in s.active && s.active[k].parent != 0 ==> s.active[k].parent in s.active)
    && (forall k :: k in s.failed ==> 1 <= k <= |s.apis| && k !in s.active)
  }

  function OpenChildren(active: map<nat, Api>, parent: nat): set<nat> {
    set k | k in active && active[k].parent == parent
  }

  ghost predicate Counted(s: State) {
    forall p: nat :: Count(s.children, p) == |OpenChildren(s.active, p)|
  }

  ghost predicate Inv(s: State, c: Config) {
    Rooted(s, c) && OpenCalls(s) && Counted(s)
  }

  lemma OpenOne(active: map<nat, Api>, key: nat, api: Api, p: nat)
    requires key !in active
    ensures |OpenChildren(active[key := api], p)| == |OpenChildren(active, p)| + if p == api.parent then 1 else 0
  {
    var before, after := OpenChildren(active, p), OpenChildren(active[key := api], p);
    if p == api.parent { assert after == before + {key}; } else { assert after == before; }
  }

  lemma CloseOne(active: map<nat, Api>, key: nat, p: nat)
    requires key in active
    ensures |OpenChildren(active - {key}, p)| == |OpenChildren(active, p)| - if p == active[key].parent then 1 else 0
  {
    var before, after := OpenChildren(active, p), OpenChildren(active - {key}, p);
    if p == active[key].parent { assert after == before - {key}; } else { assert after == before; }
  }

  lemma EnterCounts(s: State, c: Config, key: nat, api: Api)
    requires Counted(s) && key !in s.active && EnterCall(s, c, key, api).Ok?
    ensures Counted(EnterCall(s, c, key, api).value)
  {
    hide OpenChildren;
    var t := EnterCall(s, c, key, api).value;
    forall p: nat ensures Count(t.children, p) == |OpenChildren(t.active, p)| {
      assert Count(s.children, p) == |OpenChildren(s.active, p)|;
      OpenOne(s.active, key, api, p);
    }
  }

  lemma ExitCounts(s: State, key: nat, api: Api, result: nat)
    requires Counted(s) && ExitCall(s, key, api, result).Ok?
    ensures Counted(ExitCall(s, key, api, result).value)
  {
    hide OpenChildren;
    var t := ExitCall(s, key, api, result).value;
    forall p: nat ensures Count(t.children, p) == |OpenChildren(t.active, p)| {
      assert Count(s.children, p) == |OpenChildren(s.active, p)|;
      CloseOne(s.active, key, p);
    }
  }

  /** A call with a zero counter has no open child. */
  lemma NoOpenChild(s: State, key: nat)
    requires Counted(s) && Count(s.children, key) == 0
    ensures forall k :: k in s.active ==> s.active[k].parent != key
  {
    assert OpenChildren(s.active, key) == {};
    forall k | k in s.active ensures s.active[k].parent != key {
      assert k !in OpenChildren(s.active, key);
    }
  }

  lemma EnterRooted(s: State, c: Config, key: nat, api: Api)
    requires Rooted(s, c) && EnterCall(s, c, key, api).Ok? && api.marker <= c.probeCalls && api.parent <= |s.apis|
    ensures Rooted(EnterCall(s, c, key, api).value, c)
  {
    var t := EnterCall(s, c, key, api).value;
    forall i: nat ensures RootedAt(t, c, i) {
      assert RootedAt(s, c, i);
    }
  }

  lemma EnterKeeps(s: State, c: Config, key: nat, api: Api)
    requires Inv(s, c) && EnterCall(s, c, key, api).Ok? && api.marker <= c.probeCalls
    ensures Inv(EnterCall(s, c, key, api).value, c)
  {
    hide Counted, Rooted;
    EnterRooted(s, c, key, api);
    EnterCounts(s, c, key, api);
  }

  lemma ExitKeeps(s: State, c: Config, key: nat, api: Api, result: nat)
    requires Inv(s, c) && ExitCall(s, key, api, result).Ok?
    ensures Inv(ExitCall(s, key, api, result).value, c)
  {
    hide Counted;
    var t := ExitCall(s, key, api, result).value;
    forall i: nat ensures RootedAt(t, c, i) {
      assert RootedAt(s, c, i);
    }
    ExitCounts(s, key, api, result);
    NoOpenChild(s, key);
  }

  lemma StepKeeps(s: State, c: Config, row: Row)
    requires Inv(s, c) && Step(s, c, row).Ok?
    ensures Inv(Step(s, c, row).value, c)
  {
    hide EnterCall, ExitCall;
    match row
    case Enter(key, api) => EnterKeeps(s, c, key, api);
    case Exit(key, api, result) => ExitKeeps(s, c, key, api, result);
    case KernelRow(_, _, _) => SameCalls(s, c, Step(s, c, row).value);
    case SummaryRow(_) => SameCalls(s, c, Step(s, c, row).value);
  }

  lemma SameCalls(s: State, c: Config, t: State)
    requires Inv(s, c) && t == s.(kernels := t.kernels, summary := t.summary)
    ensures Inv(t, c)
  {
    forall i: nat ensures RootedAt(t, c, i) {
      assert RootedAt(s, c, i);
    }
  }

  lemma {:induction false} RunKeeps(rows: seq<Row>, c: Config)
    requires Run(rows, c).Ok?
    ensures Inv(Run(rows, c).value, c)
  {
    if rows != [] {
      RunKeeps(rows[..|rows| - 1], c);
      StepKeeps(Run(rows[..|rows| - 1], c).value, c, rows[|rows| - 1]);
      hide Step, Inv;
    }
  }

  // ---- the forest in time ----

  /** The row at which each call was entered, in the order of the identities. */
  function Enters(rows: seq<Row>): seq<nat> {
    if rows == [] then []
    else
      var before := Enters(rows[..|rows| - 1]);
      if rows[|rows| - 1].Enter? then before + [|rows| - 1] else before
  }

  /** The row at which each finished call was left. */
  function Exits(rows: seq<Row>): map<nat, nat> {
    if rows == [] then map[]
    else
      var before := Exits(rows[..|rows| - 1]);
      if rows[|rows| - 1].Exit? then before[rows[|rows| - 1].key := |rows| - 1] else before
  }

  /** A call's rows and its parent's: the child is entered later and left earlier. */
  predicate Nested(apis: seq<Api>, enters: seq<nat>, exits: map<nat, nat>, k: nat)
    requires 1 <= k <= |apis| == |enters|
  {
    var p := apis[k - 1].parent;
    && (k in exits ==> enters[k - 1] < exits[k])
    && (p != 0 ==> p < k && enters[p - 1] < enters[k - 1])
    && (p != 0 && p in exits ==> k in exits && exits[k] < exits[p])
  }

  ghost predicate Forest(s: State, enters: seq<nat>, exits: map<nat, nat>, now: nat) {
    && |enters| == |s.apis|
    && (forall i :: 0 <= i < |enters| ==> enters[i] < now)
    && (forall k :: k in exits <==> 1 <= k <= |s.apis| && k !in s.active)
    && (forall k :: k in exits ==> exits[k] < now)
    && (forall k {:trigger Nested(s.apis, enters, exits, k)} :: 1 <= k <= |s.apis| ==>
          Nested(s.apis, enters, exits, k))
  }

  lemma EnterForest(s: State, c: Config, key: nat, api: Api, enters: seq<nat>, exits: map<nat, nat>, now: nat)
    requires Inv(s, c) && EnterCall(s, c, key, api).Ok? && Forest(s, enters, exits, now)
    ensures Forest(EnterCall(s, c, key, api).value, enters + [now], exits, now + 1)
  {
    hide Counted, Rooted;
    var t := EnterCall(s, c, key, api).value;
    forall k | 1 <= k <= |t.apis| ensures Nested(t.apis, enters + [now], exits, k) {
      if k < key { assert Nested(s.apis, enters, exits, k); } else { assert t.apis[k - 1] == api; }
    }
  }

  lemma ExitForest(s: State, c: Config, key: nat, api: Api, result: nat,
                   enters: seq<nat>, exits: map<nat, nat>, now: nat)
    requires Inv(s, c) && ExitCall(s, key, api, result).Ok? && Forest(s, enters, exits, now)
    ensures Forest(ExitCall(s, key, api, result).value, enters, exits[key := now], now + 1)
  {
    hide Counted;
    NoOpenChild(s, key);
    var later := exits[key := now];
    forall k {:trigger Nested(s.apis, enters, later, k)} | 1 <= k <= |s.apis|
      ensures Nested(s.apis, enters, later, k)
    {
      assert Nested(s.apis, enters, exits, k);
      if s.apis[k - 1].parent == key { assert k !in s.active; }
    }
  }

  /** In every accepted trace the calls form a forest: a child is entered after and left before
      its parent, and the parent of an open call is open. */
  lemma {:induction false} CallsFormForest(rows: seq<Row>, c: Config)
    requires Run(rows, c).Ok?
    ensures Forest(Run(rows, c).value, Enters(rows), Exits(rows), |rows|)
    ensures forall k :: k in Run(rows, c).value.active && Run(rows, c).value.active[k].parent != 0 ==>
              Run(rows, c).value.active[k].parent in Run(rows, c).value.active
  {
    RunKeeps(rows, c);
    if rows != [] {
      var init, row := rows[..|rows| - 1], rows[|rows| - 1];
      CallsFormForest(init, c);
      RunKeeps(init, c);
      StepForest(Run(init, c).value, c, row, Enters(init), Exits(init), |init|, |rows|);
    }
  }

  lemma StepForest(s: State, c: Config, row: Row, enters: seq<nat>, exits: map<nat, nat>, now: nat, next: nat)
    requires Inv(s, c) && Step(s, c, row).Ok? && Forest(s, enters, exits, now) && next == now + 1
    ensures Forest(Step(s, c, row).value, if row.Enter? then enters + [now] else enters,
                   if row.Exit? then exits[row.key := now] else exits, next)
  {
    hide EnterCall, ExitCall;
    match row
    case Enter(key, api) => EnterForest(s, c, key, api, enters, exits, now);
    case Exit(key, api, result) => ExitForest(s, c, key, api, result, enters, exits, now);
    case KernelRow(_, _, _) => LaterForest(s, Step(s, c, row).value, enters, exits, now);
    case SummaryRow(_) => LaterForest(s, Step(s, c, row).value, enters, exits, now);
  }

  lemma LaterForest(s: State, t: State, enters: seq<nat>, exits: map<nat, nat>, now: nat)
    requires Forest(s, enters, exits, now) && t.apis == s.apis && t.active == s.active
    ensures Forest(t, enters, exits, now + 1)
  {
    forall k | 1 <= k <= |t.apis| ensures Nested(t.apis, enters, exits, k) {
      assert Nested(s.apis, enters, exits, k);
    }
  }

  // ---- ancestors and leaves ----

  lemma {:induction false} AboveNext(apis: seq<Api>, k: nat, n: nat)
    ensures var a := Above(apis, k, n);
            Above(apis, k, n + 1) == if 1 <= a <= |apis| then apis[a - 1].parent else a
    decreases n
  {
    if n > 0 && 1 <= k <= |apis| { AboveNext(apis, apis[k - 1].parent, n - 1); }
  }

  /** The call a is one of the first n calls above k. */
  ghost predicate AmongAbove(apis: seq<Api>, a: nat, k: nat, n: nat) {
    a != 0 && exists i: nat :: 1 <= i <= n && Above(apis, k, i) == a
  }

  lemma AmongNext(apis: seq<Api>, k: nat, n: nat, next: nat)
    requires next == n + 1
    ensures forall a :: AmongAbove(apis, a, k, next) <==>
              AmongAbove(apis, a, k, n) || (a != 0 && a == Above(apis, k, next))
  {
    forall a | a != 0 && a == Above(apis, k, next) ensures AmongAbove(apis, a, k, next) {
    }
  }

  lemma AmongAll(apis: seq<Api>, k: nat, n: nat)
    requires Above(apis, k, n + 1) == 0
    ensures forall a :: AmongAbove(apis, a, k, n) <==> ProperAncestor(apis, a, k)
  {
    forall a | ProperAncestor(apis, a, k) ensures AmongAbove(apis, a, k, n) {
      var i: nat :| i > 0 && Above(apis, k, i) == a;
      if i > n { AboveRootStays(apis, k, n + 1, i); }
    }
  }

  lemma ParentFacts(s: State, c: Config, k: nat)
    requires Inv(s, c) && 1 <= k <= |s.apis|
    ensures s.apis[k - 1].parent < k && DepthOf(s.depths, k) == DepthOf(s.depths, s.apis[k - 1].parent) + 1 <= MAX_DEPTH
  {
    assert RootedAt(s, c, k - 1);
  }

  lemma {:induction false} AboveDescends(s: State, c: Config, k: nat, n: nat)
    requires Rooted(s, c) && 1 <= k <= |s.apis| && n > 0
    ensures Above(s.apis, k, n) < k
    decreases n
  {
    assert RootedAt(s, c, k - 1);
    if n > 1 && s.apis[k - 1].parent != 0 { AboveDescends(s, c, s.apis[k - 1].parent, n - 1); }
  }

  lemma {:induction false} AboveRootStays(apis: seq<Api>, k: nat, n: nat, m: nat)
    requires Above(apis, k, n) == 0 && n <= m
    ensures Above(apis, k, m) == 0
  {
    if n < m {
      AboveRootStays(apis, k, n, m - 1);
      AboveNext(apis, k, m - 1);
    }
  }

  lemma AncestorIsSmaller(s: State, c: Config, a: nat, k: nat)
    requires Rooted(s, c) && 1 <= k <= |s.apis| && ProperAncestor(s.apis, a, k)
    ensures a < k
  {
    var n: nat :| n > 0 && Above(s.apis, k, n) == a;
    AboveDescends(s, c, k, n);
  }

  lemma {:induction false} Largest(keys: set<nat>) returns (k: nat)
    requires keys != {}
    ensures k in keys && forall d :: d in keys ==> d <= k
    decreases |keys|
  {
    var x :| x in keys;
    var others := keys - {x};
    assert keys == others + {x};
    k := x;
    if others != {} {
      var rest := Largest(others);
      if rest > x { k := rest; }
    }
  }

  /** A kernel with a candidate launch has a leaf. */
  lemma LeavesExist(s: State, c: Config, candidates: set<nat>)
    requires Rooted(s, c) && forall k :: k in candidates ==> 1 <= k <= |s.apis|
    ensures Leaves(s, candidates) != {} <==> candidates != {}
  {
    if candidates != {} {
      var k := Largest(candidates);
      forall d | d in candidates ensures !ProperAncestor(s.apis, k, d) {
        if ProperAncestor(s.apis, k, d) { AncestorIsSmaller(s, c, k, d); }
      }
      assert k in Leaves(s, candidates);
    }
  }

  // ---- the counts reconcile ----

  function UpTo(n: nat): (r: set<nat>)
    ensures forall k :: k in r <==> 1 <= k <= n
    ensures |r| == n
  {
    if n == 0 then {} else UpTo(n - 1) + {n}
  }

  ghost predicate Groups(groups: seq<(GroupKey, nat)>) {
    && (forall i, j :: 0 <= i < j < |groups| ==> groups[i].0 != groups[j].0)
    && (forall i :: 0 <= i < |groups| ==> groups[i].1 > 0)
  }

  ghost predicate Lists(groups: seq<(GroupKey, nat)>, key: GroupKey) {
    exists i :: 0 <= i < |groups| && groups[i].0 == key
  }

  lemma ListsCons(g: (GroupKey, nat), rest: seq<(GroupKey, nat)>)
    ensures forall key :: Lists([g] + rest, key) <==> g.0 == key || Lists(rest, key)
  {
    var all := [g] + rest;
    forall key ensures Lists(all, key) <==> g.0 == key || Lists(rest, key) {
      if g.0 == key { assert all[0].0 == key; }
      if Lists(rest, key) {
        var i :| 0 <= i < |rest| && rest[i].0 == key;
        assert all[i + 1].0 == key;
      }
      if Lists(all, key) && g.0 != key {
        var i :| 0 <= i < |all| && all[i].0 == key;
        assert rest[i - 1].0 == key;
      }
    }
  }

  lemma GroupsCons(g: (GroupKey, nat), rest: seq<(GroupKey, nat)>)
    ensures Groups([g] + rest) <==> Groups(rest) && g.1 > 0 && !Lists(rest, g.0)
  {
    var all := [g] + rest;
    assert all[0] == g;
    if Groups(all) {
      forall i, j | 0 <= i < j < |rest| ensures rest[i].0 != rest[j].0 {
        assert all[i + 1].0 != all[j + 1].0;
      }
      forall i | 0 <= i < |rest| ensures rest[i].1 > 0 && rest[i].0 != g.0 {
        assert all[i + 1].1 > 0 && all[0].0 != all[i + 1].0;
      }
    }
    if Groups(rest) && g.1 > 0 && !Lists(rest, g.0) {
      forall i, j | 0 <= i < j < |all| ensures all[i].0 != all[j].0 {
        assert all[j] == rest[j - 1];
        assert i > 0 ==> all[i] == rest[i - 1];
      }
      forall i | 0 <= i < |all| ensures all[i].1 > 0 {
        assert i > 0 ==> all[i] == rest[i - 1];
      }
    }
  }

  /** Adding to one group keeps the keys distinct and raises its category's total by one. */
  lemma {:induction false} AddGroupKeeps(groups: seq<(GroupKey, nat)>, key: GroupKey)
    requires Groups(groups)
    ensures Groups(AddGroup(groups, key))
    ensures forall k :: Lists(AddGroup(groups, key), k) <==> k == key || Lists(groups, k)
    ensures forall category ::
              Total(AddGroup(groups, key), category) ==
                Total(groups, category) + if category == key.category then 1 else 0
  {
    if groups == [] {
      GroupsCons((key, 1), []);
      ListsCons((key, 1), []);
    } else {
      var rest := groups[1..];
      assert groups == [groups[0]] + rest;
      GroupsCons(groups[0], rest);
      ListsCons(groups[0], rest);
      hide Groups, Lists;
      if groups[0].0 == key {
        GroupsCons((key, groups[0].1 + 1), rest);
        ListsCons((key, groups[0].1 + 1), rest);
      } else {
        AddGroupKeeps(rest, key);
        GroupsCons(groups[0], AddGroup(rest, key));
        ListsCons(groups[0], AddGroup(rest, key));
      }
    }
  }

  /** What holds of the tally after n kernels. */
  ghost predicate Tallied(c: Config, n: nat, t: Tally) {
    && t.counts.Keys == {Marked, Unmarked, Uncorrelated}
    && n == t.counts[Marked] + t.counts[Unmarked] + t.counts[Uncorrelated]
    && t.observed <= UpTo(c.probeCalls) && |t.observed| <= t.counts[Marked]
    && Groups(t.groups)
    && forall category :: category in t.counts ==> Total(t.groups, category) == t.counts[category]
  }

  lemma MarkersInRange(s: State, c: Config, keys: set<nat>)
    requires Rooted(s, c) && forall k :: k in keys ==> 1 <= k <= |s.apis|
    ensures Markers(s, keys) - {0} <= UpTo(c.probeCalls)
  {
    forall k | k in keys ensures s.apis[k - 1].marker <= c.probeCalls {
      assert RootedAt(s, c, k - 1);
    }
  }

  /** The test on the leaves leaves at most one call marker. */
  lemma OneMarker(s: State, c: Config, candidates: set<nat>)
    requires Rooted(s, c) && forall k :: k in candidates ==> 1 <= k <= |s.apis|
    requires Identify(s, candidates).Ok?
    ensures var ids := Identify(s, candidates).value; |ids| <= 1 && ids <= UpTo(c.probeCalls)
  {
    var leaves := Leaves(s, candidates);
    MarkersInRange(s, c, leaves);
    SubsetSize(Markers(s, leaves) - {0}, Markers(s, leaves));
  }

  lemma AtMostOne(a: set<nat>)
    ensures |a| <= 1 <==> forall x, y :: x in a && y in a ==> x == y
  {
    if a != {} {
      var x :| x in a;
      var rest := a - {x};
      assert a == rest + {x} && |a| == |rest| + 1;
      if rest != {} {
        var y :| y in rest;
        assert x in a && y in a && x != y;
      } else {
        assert a == {x};
      }
    }
  }

  /** The calls carry one marker, if any. */
  ghost predicate Agree(s: State, keys: set<nat>)
    requires forall k :: k in keys ==> 1 <= k <= |s.apis|
  {
    forall k, l :: k in keys && l in keys ==> s.apis[k - 1].marker == s.apis[l - 1].marker
  }

  lemma MarkersAgree(s: State, keys: set<nat>)
    requires forall k :: k in keys ==> 1 <= k <= |s.apis|
    ensures |Markers(s, keys)| <= 1 <==> Agree(s, keys)
    ensures forall m :: m in Markers(s, keys) <==> exists k :: k in keys && s.apis[k - 1].marker == m
  {
    AtMostOne(Markers(s, keys));
    if |Markers(s, keys)| <= 1 {
      forall k, l | k in keys && l in keys ensures s.apis[k - 1].marker == s.apis[l - 1].marker {
        assert s.apis[k - 1].marker in Markers(s, keys) && s.apis[l - 1].marker in Markers(s, keys);
      }
    }
  }

  /** A kernel is attributed exactly when no leaf launch failed and all of them carry the same
      marker; it is marked with that marker when it is not zero. */
  lemma AttributedExactly(s: State, c: Config, candidates: set<nat>)
    requires forall k :: k in candidates ==> 1 <= k <= |s.apis|
    ensures Identify(s, candidates).Ok? <==> Leaves(s, candidates) * s.failed == {} && Agree(s, Leaves(s, candidates))
    ensures Identify(s, candidates).Ok? ==>
              forall m :: m in Identify(s, candidates).value <==>
                m != 0 && exists k :: k in Leaves(s, candidates) && s.apis[k - 1].marker == m
  {
    var leaves := Leaves(s, candidates);
    assert leaves <= candidates;
    hide Leaves, Agree, Markers;
    MarkersAgree(s, leaves);
  }

  lemma TallyOne(c: Config, n: nat, t: Tally, ids: set<nat>, key: GroupKey)
    requires Tallied(c, n, t) && |ids| <= 1 && ids <= UpTo(c.probeCalls) && (ids != {} ==> key.category == Marked)
    requires key.category in t.counts
    ensures Tallied(c, n + 1, Tally(t.counts[key.category := t.counts[key.category] + 1], t.observed + ids,
                                    AddGroup(t.groups, key)))
  {
    AddGroupKeeps(t.groups, key);
    UnionOfTwo(t.observed, ids);
    hide Groups, AddGroup, Total, Lists;
  }

  lemma ResolveKeeps(s: State, c: Config, n: nat, t: Tally, kernel: Kernel)
    requires Rooted(s, c) && Tallied(c, n, t) && t.counts.Keys == {Marked, Unmarked, Uncorrelated}
    requires Resolve(s, c, t, kernel).Ok?
    ensures Tallied(c, n + 1, Resolve(s, c, t, kernel).value)
  {
    hide Tallied, Identify, Links, Rooted, AddGroup, UpTo;
    var candidates := Candidates(s, c, kernel.correlation);
    var ids := Identify(s, candidates).value;
    OneMarker(s, c, candidates);
    var category := if ids != {} then Marked else if candidates != {} then Unmarked else Uncorrelated;
    var origin := if candidates == {} then "unobserved" else c.render(Links(s, candidates));
    TallyOne(c, n, t, ids, GroupKey(kernel.name, origin, category));
  }

  lemma TallyNone(c: Config)
    ensures Tallied(c, 0, ZERO)
  {
  }

  lemma {:induction false} ResolveAllKeeps(s: State, c: Config, n: nat)
    requires Rooted(s, c) && n <= |s.kernels| && ResolveAll(s, c, n).Ok?
    ensures Tallied(c, n, ResolveAll(s, c, n).value)
  {
    hide Resolve, Tallied, Rooted;
    TallyNone(c);
    if n > 0 {
      ResolveAllKeeps(s, c, n - 1);
      ResolveKeeps(s, c, n - 1, ResolveAll(s, c, n - 1).value, s.kernels[n - 1]);
    }
  }

  /** Whatever the trace, an analysis that succeeds passes the report validator. */
  lemma AnalysisReconciles(rows: seq<Row>, c: Config)
    requires Analysis(rows, c).Ok?
    ensures Reconciles(|Run(rows, c).value.kernels|, c.probeCalls, Analysis(rows, c).value)
  {
    RunKeeps(rows, c);
    var s := Run(rows, c).value;
    ResolveAllKeeps(s, c, |s.kernels|);
    SubsetSize(Analysis(rows, c).value.observed, UpTo(c.probeCalls));
  }
}
