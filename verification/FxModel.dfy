/** What a next-use plan of python/xvram/fx.py means for the graph it was made from. */
module FxModel {
  import opened Options
  import opened Sorting

  /** `inputs` are positions in the node list; a position past the end stands for a node outside
      the graph. */
  datatype Node = Node(name: string, op: string, inputs: seq<nat>)

  datatype Value = Value(name: string, producer: nat, op: string, uses: seq<nat>, escapes: bool)

  datatype ReadHint = ReadHint(name: string, nextUse: Option<nat>)

  datatype StepPlan = StepPlan(index: nat, name: string, op: string, hints: seq<ReadHint>,
                               releases: seq<string>, prefetches: seq<string>)

  datatype Plan = Plan(values: seq<Value>, steps: seq<StepPlan>, distance: nat)

  datatype Fault = BadDistance | EmptyName | DuplicateName | EmptyOperation | OutsideGraph | NotTopological

  datatype Outcome<+T> = Ok(value: T) | Fail(fault: Fault)

  // ---- graphs ----

  predicate Named(g: seq<Node>) {
    && (forall i :: 0 <= i < |g| ==> g[i].name != "" && g[i].op != "")
    && (forall i, j :: 0 <= i < j < |g| ==> g[i].name != g[j].name)
  }

  ghost predicate Topological(g: seq<Node>) {
    forall i, v :: 0 <= i < |g| && v in g[i].inputs ==> v < i
  }

  predicate Reads(g: seq<Node>, i: nat, v: nat) {
    i < |g| && v in g[i].inputs
  }

  ghost predicate Unused(g: seq<Node>, v: nat) {
    forall i: nat :: !Reads(g, i, v)
  }

  ghost predicate LastRead(g: seq<Node>, i: nat, v: nat) {
    Reads(g, i, v) && forall j: nat :: j > i ==> !Reads(g, j, v)
  }

  /** Step j is the first after i to read v. */
  ghost predicate FirstReadAfter(g: seq<Node>, i: nat, j: nat, v: nat) {
    i < j && Reads(g, j, v) && forall k: nat :: i < k < j ==> !Reads(g, k, v)
  }

  ghost predicate Escapes(g: seq<Node>, v: nat) {
    exists i: nat :: i < |g| && g[i].op == "output" && Reads(g, i, v)
  }

  predicate Computed(op: string) {
    op != "placeholder" && op != "get_attr" && op != "output"
  }

  // ---- plans ----

  /** The value v dies at step i: it is computed, stays in the graph, and i is its last use, or
      its own step when nothing uses it. */
  ghost predicate DiesAt(g: seq<Node>, v: nat, i: nat) {
    && v < |g| && i < |g| && Computed(g[v].op) && !Escapes(g, v)
    && (LastRead(g, i, v) || (Unused(g, v) && i == v))
  }

  /** The value v exists before step i, is not read by it and is read within the window. */
  ghost predicate WantedSoon(g: seq<Node>, distance: nat, v: nat, i: nat) {
    v < i && !Reads(g, i, v) && exists j: nat :: i < j <= i + distance && Reads(g, j, v)
  }

  /** Strictly increasing names, so each occurs once. */
  ghost predicate InNameOrder(names: seq<string>) {
    forall i, j :: 0 <= i < j < |names| ==> StringLe(names[i], names[j]) && names[i] != names[j]
  }

  ghost predicate ReadsRight(g: seq<Node>, i: nat, hints: seq<ReadHint>)
    requires i < |g| && Topological(g)
  {
    && (forall v: nat :: Reads(g, i, v) <==> v < |g| && exists k :: 0 <= k < |hints| && hints[k].name == g[v].name)
    && (forall k, v: nat :: 0 <= k < |hints| && v < |g| && hints[k].name == g[v].name ==>
          match hints[k].nextUse
          case None => LastRead(g, i, v)
          case Some(j) => FirstReadAfter(g, i, j, v))
    && (forall k, l :: 0 <= k < l < |hints| ==> hints[k].name != hints[l].name)
  }

  ghost predicate ReleasesRight(g: seq<Node>, i: nat, releases: seq<string>) {
    && InNameOrder(releases)
    && forall name :: name in releases <==> exists v: nat :: DiesAt(g, v, i) && g[v].name == name
  }

  /** Earlier first use first, then by name. */
  ghost predicate SoonerOrNamed(g: seq<Node>, i: nat, v: nat, w: nat) {
    forall j: nat, k: nat :: FirstReadAfter(g, i, j, v) && FirstReadAfter(g, i, k, w) ==>
      v < |g| && w < |g| && (j < k || (j == k && StringLe(g[v].name, g[w].name) && g[v].name != g[w].name))
  }

  ghost predicate PrefetchesRight(g: seq<Node>, distance: nat, i: nat, prefetches: seq<string>) {
    && (forall name :: name in prefetches <==>
          exists v: nat :: v < |g| && WantedSoon(g, distance, v, i) && g[v].name == name)
    && (forall k, l, v: nat, w: nat ::
          (0 <= k < l < |prefetches| && v < |g| && w < |g|
           && prefetches[k] == g[v].name && prefetches[l] == g[w].name) ==> SoonerOrNamed(g, i, v, w))
  }

  ghost predicate StepRight(g: seq<Node>, distance: nat, i: nat, step: StepPlan)
    requires i < |g| && Topological(g)
  {
    && step.index == i && step.name == g[i].name && step.op == g[i].op
    && ReadsRight(g, i, step.hints) && ReleasesRight(g, i, step.releases)
    && PrefetchesRight(g, distance, i, step.prefetches)
  }

  ghost predicate Ascending(s: seq<nat>) {
    forall i, j :: 0 <= i < j < |s| ==> s[i] < s[j]
  }

  /** A value record lists exactly the steps that read the value, in order. */
  ghost predicate UsesRight(g: seq<Node>, v: nat, value: Value)
    requires v < |g|
  {
    && value.name == g[v].name && value.producer == v && value.op == g[v].op
    && Ascending(value.uses) && (forall i: nat :: i in value.uses <==> Reads(g, i, v))
    && (value.escapes <==> Escapes(g, v))
  }

  ghost predicate PlanRight(g: seq<Node>, distance: nat, plan: Plan) {
    && Named(g) && Topological(g) && plan.distance == distance <= 8 && |plan.steps| == |plan.values| == |g|
    && (forall v: nat :: v < |g| ==> UsesRight(g, v, plan.values[v]))
    && forall i :: 0 <= i < |g| ==> StepRight(g, distance, i, plan.steps[i])
  }

  // ---- liveness ----

  lemma NamesApart(g: seq<Node>, v: nat, w: nat)
    requires Named(g) && v < |g| && w < |g| && g[v].name == g[w].name
    ensures v == w
  {
  }

  lemma {:induction false} LastReadExists(g: seq<Node>, v: nat, n: nat) returns (i: nat)
    requires n <= |g| && (exists j: nat :: j < n && Reads(g, j, v)) && forall j: nat :: j >= n ==> !Reads(g, j, v)
    ensures LastRead(g, i, v)
  {
    if Reads(g, n - 1, v) { i := n - 1; } else { i := LastReadExists(g, v, n - 1); }
  }

  lemma DeathIsUnique(g: seq<Node>, v: nat, i: nat, j: nat)
    requires DiesAt(g, v, i) && DiesAt(g, v, j)
    ensures i == j
  {
  }

  /** Every computed value that stays in the graph is released at exactly one step: its last
      use, or its own step when it has none. No other value is ever released. */
  lemma ReleasedExactlyOnce(g: seq<Node>, distance: nat, plan: Plan, v: nat) returns (death: nat)
    requires PlanRight(g, distance, plan) && v < |g|
    ensures forall i :: 0 <= i < |g| ==>
              (g[v].name in plan.steps[i].releases <==> Computed(g[v].op) && !Escapes(g, v) && i == death)
    ensures Computed(g[v].op) && !Escapes(g, v) ==>
              death < |g| && (if Unused(g, v) then death == v else LastRead(g, death, v))
  {
    death := v;
    if !Unused(g, v) {
      var j: nat :| Reads(g, j, v);
      death := LastReadExists(g, v, |g|);
    }
    forall i | 0 <= i < |g|
      ensures g[v].name in plan.steps[i].releases <==> Computed(g[v].op) && !Escapes(g, v) && i == death
    {
      ReleaseMeansDeath(g, distance, plan, v, i);
      if Computed(g[v].op) && !Escapes(g, v) {
        assert DiesAt(g, v, death);
        if DiesAt(g, v, i) { DeathIsUnique(g, v, i, death); }
      }
    }
  }

  lemma ReleaseMeansDeath(g: seq<Node>, distance: nat, plan: Plan, v: nat, i: nat)
    requires PlanRight(g, distance, plan) && v < |g| && i < |g|
    ensures g[v].name in plan.steps[i].releases <==> DiesAt(g, v, i)
  {
    assert StepRight(g, distance, i, plan.steps[i]);
    if g[v].name in plan.steps[i].releases {
      var w: nat :| DiesAt(g, w, i) && g[w].name == g[v].name;
      NamesApart(g, v, w);
    }
  }

  /** A value released at step i is read by no later step and prefetched by neither i nor a
      later step. */
  lemma NothingAfterRelease(g: seq<Node>, distance: nat, plan: Plan, v: nat, i: nat, j: nat)
    requires PlanRight(g, distance, plan) && v < |g| && i <= j < |g| && g[v].name in plan.steps[i].releases
    ensures i < j ==> forall k :: 0 <= k < |plan.steps[j].hints| ==> plan.steps[j].hints[k].name != g[v].name
    ensures g[v].name !in plan.steps[j].prefetches
  {
    ReleaseMeansDeath(g, distance, plan, v, i);
    assert StepRight(g, distance, j, plan.steps[j]);
    if g[v].name in plan.steps[j].prefetches {
      var w: nat :| w < |g| && WantedSoon(g, distance, w, j) && g[w].name == g[v].name;
      NamesApart(g, v, w);
    }
  }
}
