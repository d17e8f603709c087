/** The launch census of python/xvram/compat_launch_census.py: API calls, kernels and the
    reconciled counts. */
module LaunchCensus {
  import opened Options

  datatype Domain = Runtime | Driver

  datatype Api = Api(domain: Domain, correlation: nat, marker: nat, symbol: string, parent: nat)

  datatype Kernel = Kernel(correlation: nat, name: string)

  datatype Summary = Summary(errors: nat, dropped: nat, outstanding: nat)

  datatype Row =
    | Enter(key: nat, api: Api)
    | Exit(key: nat, api: Api, result: nat)
    | KernelRow(kernel: Kernel, start: nat, end: nat)
    | SummaryRow(summary: Summary)

  /** The caller's limits, the launch pattern and the rendering of a set of origins. */
  datatype Config = Config(probeCalls: nat, apiLimit: nat, launch: string -> bool,
                           render: set<(Domain, string)> -> string)

  /** Calls are numbered from one, so `apis[k - 1]` is the call with identity k. */
  datatype State = State(apis: seq<Api>, active: map<nat, Api>, children: map<nat, int>, depths: seq<nat>,
                         failed: set<nat>, kernels: seq<Kernel>, summary: Option<Summary>)

  const INITIAL := State([], map[], map[], [], {}, [], None)

  const MAX_DEPTH := 64
  const MAX_KERNELS := 100000
  const MAX_ORIGIN := 8250
  const MAX_GROUPS := 4096

  datatype Fault = AfterSummary | Number | ZeroCorrelation | ApiIdentity | ApiDepth | ExitMismatch | KernelBounds
                 | Incomplete | FailedLaunch | AmbiguousMarker | OriginLimit | NameLimit

  datatype Outcome<+T> = Ok(value: T) | Fail(fault: Fault)

  function Count(counter: map<nat, int>, k: nat): int {
    if k in counter then counter[k] else 0
  }

  function DepthOf(depths: seq<nat>, k: nat): nat {
    if 1 <= k <= |depths| then depths[k - 1] else 0
  }

  function EnterCall(s: State, c: Config, key: nat, api: Api): Outcome<State> {
    var depth := DepthOf(s.depths, api.parent) + 1;
    if key != |s.apis| + 1 || |s.apis| >= c.apiLimit || (api.parent != 0 && api.parent !in s.active)
    then Fail(ApiIdentity)
    else if depth > MAX_DEPTH then Fail(ApiDepth)
    else Ok(s.(apis := s.apis + [api], active := s.active[key := api], depths := s.depths + [depth],
               children := s.children[api.parent := Count(s.children, api.parent) + 1]))
  }

  function ExitCall(s: State, key: nat, api: Api, result: nat): Outcome<State> {
    if Count(s.children, key) != 0 || key !in s.active || s.active[key] != api then Fail(ExitMismatch)
    else Ok(s.(active := s.active - {key}, children := s.children[api.parent := Count(s.children, api.parent) - 1],
               failed := if result != 0 then s.failed + {key} else s.failed))
  }

  function Step(s: State, c: Config, row: Row): Outcome<State> {
    if s.summary.Some? then Fail(AfterSummary)
    else
      match row
      case Enter(key, api) =>
        if api.marker > c.probeCalls then Fail(Number)
        else if api.correlation == 0 then Fail(ZeroCorrelation) else EnterCall(s, c, key, api)
      case Exit(key, api, result) =>
        if api.marker > c.probeCalls then Fail(Number)
        else if api.correlation == 0 then Fail(ZeroCorrelation) else ExitCall(s, key, api, result)
      case KernelRow(kernel, start, end) =>
        if kernel.correlation == 0 || start == 0 || end < start || |s.kernels| >= MAX_KERNELS then Fail(KernelBounds)
        else Ok(s.(kernels := s.kernels + [kernel]))
      case SummaryRow(summary) => Ok(s.(summary := Some(summary)))
  }

  function Run(rows: seq<Row>, c: Config): Outcome<State> {
    if rows == [] then Ok(INITIAL)
    else
      var before := Run(rows[..|rows| - 1], c);
      if before.Ok? then Step(before.value, c, rows[|rows| - 1]) else before
  }

  /** The trace test between reading and resolving. */
  predicate Complete(s: State) {
    s.summary.Some? && s.kernels != [] && s.summary.value.errors == 0 && s.summary.value.dropped == 0
  }

  // ---- resolving kernels ----

  datatype Category = Marked | Unmarked | Uncorrelated

  datatype GroupKey = GroupKey(name: string, origin: string, category: Category)

  /** `groups` lists the distinct keys in the order in which they first appear. */
  datatype Tally = Tally(counts: map<Category, nat>, observed: set<nat>, groups: seq<(GroupKey, nat)>)

  const ZERO := Tally(map[Marked := 0, Unmarked := 0, Uncorrelated := 0], {}, [])

  /** The finished launches with a correlation. */
  function Candidates(s: State, c: Config, correlation: nat): set<nat> {
    set i | 0 <= i < |s.apis| && i + 1 !in s.active && c.launch(s.apis[i].symbol)
            && s.apis[i].correlation == correlation :: i + 1
  }

  /** The call that is n parent links above k; 0 is above every root. */
  function Above(apis: seq<Api>, k: nat, n: nat): nat
    decreases n
  {
    if n == 0 || !(1 <= k <= |apis|) then k else Above(apis, apis[k - 1].parent, n - 1)
  }

  ghost predicate ProperAncestor(apis: seq<Api>, a: nat, k: nat) {
    a != 0 && exists n: nat :: n > 0 && Above(apis, k, n) == a
  }

  /** The candidates that no other candidate descends from. */
  ghost function Leaves(s: State, candidates: set<nat>): set<nat> {
    set k | k in candidates && forall d :: d in candidates ==> !ProperAncestor(s.apis, k, d)
  }

  function Markers(s: State, keys: set<nat>): set<nat>
    requires forall k :: k in keys ==> 1 <= k <= |s.apis|
  {
    set k | k in keys :: s.apis[k - 1].marker
  }

  function Links(s: State, keys: set<nat>): set<(Domain, string)>
    requires forall k :: k in keys ==> 1 <= k <= |s.apis|
  {
    set k | k in keys :: (s.apis[k - 1].domain, s.apis[k - 1].symbol)
  }

  function AddGroup(groups: seq<(GroupKey, nat)>, key: GroupKey): seq<(GroupKey, nat)> {
    if groups == [] then [(key, 1)]
    else if groups[0].0 == key then [(key, groups[0].1 + 1)] + groups[1..]
    else [groups[0]] + AddGroup(groups[1..], key)
  }

  /** The call markers of a kernel's leaves, with the zero marker removed. */
  ghost function Identify(s: State, candidates: set<nat>): Outcome<set<nat>>
    requires forall k :: k in candidates ==> 1 <= k <= |s.apis|
  {
    var leaves := Leaves(s, candidates);
    if leaves * s.failed != {} then Fail(FailedLaunch)
    else if |Markers(s, leaves)| > 1 then Fail(AmbiguousMarker)
    else Ok(Markers(s, leaves) - {0})
  }

  ghost function Resolve(s: State, c: Config, t: Tally, kernel: Kernel): Outcome<Tally>
    requires t.counts.Keys == {Marked, Unmarked, Uncorrelated}
    ensures Resolve(s, c, t, kernel).Ok? ==> Resolve(s, c, t, kernel).value.counts.Keys == t.counts.Keys
  {
    var candidates := Candidates(s, c, kernel.correlation);
    var ids := Identify(s, candidates);
    if ids.Fail? then Fail(ids.fault)
    else
      var category := if ids.value != {} then Marked else if candidates != {} then Unmarked else Uncorrelated;
      var origin := if candidates == {} then "unobserved" else c.render(Links(s, candidates));
      if |origin| > MAX_ORIGIN then Fail(OriginLimit)
      else Ok(Tally(t.counts[category := t.counts[category] + 1], t.observed + ids.value,
                    AddGroup(t.groups, GroupKey(kernel.name, origin, category))))
  }

  ghost function ResolveAll(s: State, c: Config, n: nat): (r: Outcome<Tally>)
    requires n <= |s.kernels|
    ensures r.Ok? ==> r.value.counts.Keys == {Marked, Unmarked, Uncorrelated}
  {
    if n == 0 then Ok(ZERO)
    else
      var before := ResolveAll(s, c, n - 1);
      if before.Ok? then Resolve(s, c, before.value, s.kernels[n - 1]) else before
  }

  ghost function Analysis(rows: seq<Row>, c: Config): Outcome<Tally> {
    var run := Run(rows, c);
    if run.Fail? then Fail(run.fault)
    else if !Complete(run.value) then Fail(Incomplete)
    else
      var tally := ResolveAll(run.value, c, |run.value.kernels|);
      if tally.Fail? then tally
      else if |tally.value.groups| > MAX_GROUPS then Fail(NameLimit) else tally
  }

  // ---- the report test ----

  function Total(groups: seq<(GroupKey, nat)>, category: Category): nat {
    if groups == [] then 0
    else (if groups[0].0.category == category then groups[0].1 else 0) + Total(groups[1..], category)
  }

  function Smaller(a: nat, b: nat): nat {
    if a <= b then a else b
  }

  /** What the report validator accepts of the counts and kernel rows. */
  ghost predicate Reconciles(kernels: nat, probeCalls: nat, t: Tally) {
    && t.counts.Keys == {Marked, Unmarked, Uncorrelated}
    && kernels == t.counts[Marked] + t.counts[Unmarked] + t.counts[Uncorrelated] && kernels > 0
    && |t.observed| <= Smaller(probeCalls, t.counts[Marked])
    && (forall i, j :: 0 <= i < j < |t.groups| ==> t.groups[i].0 != t.groups[j].0)
    && (forall i :: 0 <= i < |t.groups| ==> t.groups[i].1 > 0)
    && (forall category :: category in t.counts ==> Total(t.groups, category) == t.counts[category])
  }
}
