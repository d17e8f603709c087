/** The clocks of OrderModel answer reachability questions about a happens-before
    graph that never mentions a clock. Nodes are numbered from zero here. */
module OrderProofs {
  import opened Options
  import opened OrderModel

  /** preds[n] are the direct predecessors of node n; `frontier[k]` are the nodes the
      next node of stream k will follow directly; `host` are the nodes whose completion
      the host has witnessed; `recorder` is the node that made an event record. */
  datatype Graph = Graph(
    preds: seq<set<nat>>,
    owner: seq<Key>,
    frontier: map<Key, set<nat>>,
    host: set<nat>,
    recorder: map<Token, nat>)

  const EMPTY_GRAPH := Graph([], [], map[], {}, map[])

  function AddNode(g: Graph, stream: Key, edges: set<nat>): Graph {
    g.(preds := g.preds + [edges],
       owner := g.owner + [stream],
       frontier := g.frontier[stream := {|g.preds|}])
  }

  function AddRecord(g: Graph, stream: Key, token: Token): Graph
    requires stream in g.frontier
  {
    AddNode(g, stream, g.frontier[stream]).(recorder := g.recorder[token := |g.preds|])
  }

  /** The stream that a numbered node was submitted on. */
  function OwnerOf(g: Graph, node: nat): Option<Key> {
    if 1 <= node <= |g.owner| then Some(g.owner[node - 1]) else None
  }

  /** The number of the node that made a record. */
  function RecorderOf(g: Graph, token: Token): Option<nat> {
    if token in g.recorder then Some(g.recorder[token] + 1) else None
  }

  function AllFrontiers(g: Graph): set<nat> {
    set k, p | k in g.frontier && p in g.frontier[k] :: p
  }

  predicate Mentions(g: Graph, op: Op) {
    match op
    case Submit(stream) => stream in g.frontier
    case Record(_, stream) => stream in g.frontier
    case Wait(stream, token) => stream in g.frontier && token in g.recorder
    case Query(token, _) => token in g.recorder
    case SynchronizeStream(key, _) => key in g.frontier
    case InheritHostRetirements(key) => key in g.frontier
    case _ => true
  }

  /** The graph after an operation with the given outcome. */
  function Track(g: Graph, op: Op, outcome: Outcome): Graph {
    if outcome.Rejected? || !Mentions(g, op) then g
    else match op
      case CreateStream(key) => g.(frontier := g.frontier[key := {}])
      case Submit(stream) => AddNode(g, stream, g.frontier[stream])
      case Record(_, stream) =>
        if outcome.NewRecord? then AddRecord(g, stream, outcome.token) else g
      case Wait(stream, token) => AddNode(g, stream, g.frontier[stream] + {g.recorder[token]})
      case Query(token, report) =>
        if report == Success then g.(host := g.host + {g.recorder[token]}) else g
      case SynchronizeStream(key, _) => g.(host := g.host + g.frontier[key])
      case InheritHostRetirements(key) => g.(frontier := g.frontier[key := g.frontier[key] + g.host])
      case SynchronizeContext(_) => g.(host := g.host + AllFrontiers(g))
      case DestroyStream(key) => g.(frontier := g.frontier - {key})
      case _ => g
  }

  /** a is b, or an edge path leads from a to b. */
  predicate Reaches(preds: seq<set<nat>>, a: nat, b: nat) {
    a == b || (b < |preds| && exists p :: p in preds[b] && p < b && Reaches(preds, a, p))
  }

  predicate ReachesAny(preds: seq<set<nat>>, a: nat, targets: set<nat>) {
    exists p :: p in targets && Reaches(preds, a, p)
  }

  lemma {:induction false} ReachesOrder(preds: seq<set<nat>>, a: nat, b: nat)
    requires Reaches(preds, a, b)
    ensures a <= b
  {
    if a != b {
      var p :| p in preds[b] && p < b && Reaches(preds, a, p);
      ReachesOrder(preds, a, p);
    }
  }

  lemma {:induction false} ReachesTransitive(preds: seq<set<nat>>, a: nat, b: nat, c: nat)
    requires Reaches(preds, a, b) && Reaches(preds, b, c)
    ensures Reaches(preds, a, c)
    decreases c
  {
    if b != c {
      var p :| p in preds[c] && p < c && Reaches(preds, b, p);
      ReachesTransitive(preds, a, b, p);
    }
  }

  /** Adding a node changes no path between the nodes that were there. */
  lemma {:induction false} ReachesStable(preds: seq<set<nat>>, more: seq<set<nat>>, a: nat, b: nat)
    requires b < |preds|
    ensures Reaches(preds, a, b) <==> Reaches(preds + more, a, b)
  {
    var grown := preds + more;
    assert grown[b] == preds[b];
    forall p | p in preds[b] && p < b ensures Reaches(preds, a, p) <==> Reaches(grown, a, p) {
      ReachesStable(preds, more, a, p);
    }
  }

  lemma ReachesAnyStable(preds: seq<set<nat>>, more: seq<set<nat>>, a: nat, targets: set<nat>)
    requires forall p :: p in targets ==> p < |preds|
    ensures ReachesAny(preds, a, targets) <==> ReachesAny(preds + more, a, targets)
  {
    forall p | p in targets ensures Reaches(preds, a, p) <==> Reaches(preds + more, a, p) {
      ReachesStable(preds, more, a, p);
    }
  }

  lemma ReachesAnyTransitive(preds: seq<set<nat>>, a: nat, b: nat, targets: set<nat>)
    requires Reaches(preds, a, b) && ReachesAny(preds, b, targets)
    ensures ReachesAny(preds, a, targets)
  {
    var p :| p in targets && Reaches(preds, b, p);
    ReachesTransitive(preds, a, b, p);
  }

  /** Everything submitted so far: each node's clock, edges and stream. */
  datatype History = History(nodes: seq<Clock>, preds: seq<set<nat>>, owner: seq<Key>)

  predicate Aligned(h: History) {
    |h.nodes| == |h.preds| == |h.owner|
  }

  /** The position of node a among the nodes of its own stream, as its clock says. */
  function Own(h: History, a: nat): nat
    requires Aligned(h) && a < |h.nodes|
  {
    Get(h.nodes[a], h.owner[a])
  }

  ghost predicate Shaped(h: History) {
    && Aligned(h)
    && (forall i :: 0 <= i < |h.nodes| ==> Own(h, i) > 0)
    && (forall i, p :: 0 <= i < |h.nodes| && p in h.preds[i] ==> p < i)
  }

  /** Some node of stream k holds exactly component v. */
  ghost predicate Attained(h: History, k: Key, v: nat)
    requires Aligned(h)
  {
    exists a :: 0 <= a < |h.nodes| && h.owner[a] == k && Own(h, a) == v
  }

  ghost predicate Bounded(h: History, targets: set<nat>) {
    forall p :: p in targets ==> p < |h.nodes|
  }

  /** Clock c covers exactly the nodes from which `targets` is reachable. */
  ghost predicate Covers(h: History, c: Clock, targets: set<nat>)
    requires Aligned(h)
  {
    && (forall a :: 0 <= a < |h.nodes| ==>
          (Own(h, a) <= Get(c, h.owner[a]) <==> ReachesAny(h.preds, a, targets)))
    && (forall k :: k in c ==> Attained(h, k, c[k]))
  }

  lemma CoversJoin(h: History, c: Clock, d: Clock, left: set<nat>, right: set<nat>)
    requires Aligned(h) && Covers(h, c, left) && Covers(h, d, right)
    ensures Covers(h, Join(c, d), left + right)
  {
    var j := Join(c, d);
    forall a | 0 <= a < |h.nodes|
      ensures Own(h, a) <= Get(j, h.owner[a]) <==> ReachesAny(h.preds, a, left + right)
    {
      assert ReachesAny(h.preds, a, left + right) <==>
             ReachesAny(h.preds, a, left) || ReachesAny(h.preds, a, right);
    }
    forall k | k in j ensures Attained(h, k, j[k]) {
    }
  }

  lemma CoversNothing(h: History)
    requires Shaped(h)
    ensures Covers(h, map[], {})
  {
  }

  /** Comparing clocks is comparing what they cover. */
  lemma WithinIsReachability(h: History, c: Clock, d: Clock, left: set<nat>, right: set<nat>)
    requires Aligned(h) && Bounded(h, left) && Covers(h, c, left) && Covers(h, d, right)
    ensures Within(c, d) <==> forall p :: p in left ==> ReachesAny(h.preds, p, right)
  {
    if Within(c, d) {
      forall p | p in left ensures ReachesAny(h.preds, p, right) {
        assert Reaches(h.preds, p, p);
        assert ReachesAny(h.preds, p, left);
      }
    }
    if forall p :: p in left ==> ReachesAny(h.preds, p, right) {
      forall k | k in c ensures c[k] <= Get(d, k) {
        var a :| 0 <= a < |h.nodes| && h.owner[a] == k && Own(h, a) == c[k];
        assert ReachesAny(h.preds, a, left);
        var p :| p in left && Reaches(h.preds, a, p);
        ReachesAnyTransitive(h.preds, a, p, right);
      }
    }
  }

  /** Component v is newer than every node of `stream`. */
  ghost predicate Newest(h: History, stream: Key, v: nat)
    requires Aligned(h)
  {
    v > 0 && forall a :: 0 <= a < |h.nodes| && h.owner[a] == stream ==> Own(h, a) < v
  }

  function Extend(h: History, node: Clock, stream: Key, edges: set<nat>): History {
    History(h.nodes + [node], h.preds + [edges], h.owner + [stream])
  }

  /** What a clock covers is unchanged by a new node. */
  lemma CoversGrow(h: History, c: Clock, targets: set<nat>, node: Clock, stream: Key, edges: set<nat>)
    requires Aligned(h) && Bounded(h, targets) && Covers(h, c, targets)
    requires Newest(h, stream, Get(node, stream))
    ensures Covers(Extend(h, node, stream, edges), c, targets)
  {
    var n := |h.nodes|;
    var x := Extend(h, node, stream, edges);
    forall a | 0 <= a < n + 1
      ensures Own(x, a) <= Get(c, x.owner[a]) <==> ReachesAny(x.preds, a, targets)
    {
      ReachesAnyStable(h.preds, [edges], a, targets);
      if a == n {
        forall p | p in targets ensures !Reaches(x.preds, n, p) {
          if Reaches(x.preds, n, p) { ReachesOrder(x.preds, n, p); }
        }
        if stream in c { assert Attained(h, stream, c[stream]); }
      } else {
        assert Own(x, a) == Own(h, a);
      }
    }
    forall k | k in c ensures Attained(x, k, c[k]) {
      var a :| 0 <= a < n && h.owner[a] == k && Own(h, a) == c[k];
      assert Own(x, a) == c[k];
    }
  }

  /** The ticked clock of a stream covers the new node and what the stream had seen. */
  lemma CoversNewNode(h: History, c: Clock, edges: set<nat>, stream: Key)
    requires Aligned(h) && Bounded(h, edges) && Covers(h, c, edges)
    requires Newest(h, stream, Get(c, stream) + 1)
    ensures Covers(Extend(h, Tick(c, stream), stream, edges), Tick(c, stream), {|h.nodes|})
  {
    var n := |h.nodes|;
    var node := Tick(c, stream);
    var x := Extend(h, node, stream, edges);
    CoversGrow(h, c, edges, node, stream, edges);
    forall a | 0 <= a < n + 1
      ensures Own(x, a) <= Get(node, x.owner[a]) <==> ReachesAny(x.preds, a, {n})
    {
      assert ReachesAny(x.preds, a, {n}) <==> Reaches(x.preds, a, n);
      if a < n {
        assert x.preds[n] == edges;
        assert Reaches(x.preds, a, n) <==> ReachesAny(x.preds, a, edges);
        if x.owner[a] == stream { assert Own(x, a) == Own(h, a); }
      }
    }
    forall k | k in node ensures Attained(x, k, node[k]) {
      if k == stream { assert Own(x, n) == node[k]; } else { assert Attained(x, k, c[k]); }
    }
  }

  // ---- the invariant of every reachable state ----

  function Past(s: State, g: Graph): History {
    History(s.nodes, g.preds, g.owner)
  }

  ghost predicate NodesCovered(h: History) {
    Shaped(h) && forall i :: 0 <= i < |h.nodes| ==> Covers(h, h.nodes[i], {i})
  }

  ghost predicate StreamsCovered(h: History, streams: map<Key, Clock>, frontier: map<Key, set<nat>>)
    requires Aligned(h)
  {
    && frontier.Keys == streams.Keys
    && (forall k :: k in streams ==> Bounded(h, frontier[k]) && Covers(h, streams[k], frontier[k]))
  }

  ghost predicate RecordsCovered(h: History, records: map<Token, Clock>, recorder: map<Token, nat>)
    requires Aligned(h)
  {
    && recorder.Keys == records.Keys
    && (forall t :: t in records ==> recorder[t] < |h.nodes| && Covers(h, records[t], {recorder[t]}))
  }

  /** A live stream's frontier sees all its own nodes and, beyond them, only retired
      ones; every node of a destroyed stream is retired. */
  ghost predicate Accounted(h: History, frontier: map<Key, set<nat>>, host: set<nat>)
    requires Aligned(h)
  {
    && (forall a :: 0 <= a < |h.nodes| ==>
          if h.owner[a] in frontier then ReachesAny(h.preds, a, frontier[h.owner[a]])
          else ReachesAny(h.preds, a, host))
    && (forall k, p :: k in frontier && p in frontier[k] && p < |h.nodes| ==>
          h.owner[p] == k || ReachesAny(h.preds, p, host))
  }

  ghost predicate Generations(owner: seq<Key>, live: set<Key>, generations: map<nat, nat>) {
    && (forall k :: k in live ==> k.1 <= Get(generations, k.0))
    && (forall a :: 0 <= a < |owner| ==> owner[a].1 <= Get(generations, owner[a].0))
  }

  ghost predicate Ordered(order: seq<Key>, live: set<Key>) {
    && (forall k :: k in order <==> k in live)
    && (forall i, j :: 0 <= i < j < |order| ==> order[i] != order[j])
  }

  ghost predicate Inv(s: State, g: Graph) {
    var h := Past(s, g);
    && NodesCovered(h)
    && StreamsCovered(h, s.streams, g.frontier)
    && RecordsCovered(h, s.records, g.recorder)
    && Bounded(h, g.host) && Covers(h, s.completed, g.host)
    && Accounted(h, g.frontier, g.host)
    && Generations(g.owner, s.streams.Keys, s.streamGenerations)
    && Ordered(s.order, s.streams.Keys)
  }

  lemma InvInitially()
    ensures Inv(INITIAL, EMPTY_GRAPH)
  {
  }

  // ---- a new node ----

  lemma NextIsNewest(h: History, stream: Key, c: Clock, frontier: map<Key, set<nat>>,
                     host: set<nat>, edges: set<nat>)
    requires Aligned(h) && stream in frontier && Accounted(h, frontier, host)
    requires frontier[stream] <= edges && Covers(h, c, edges)
    ensures Newest(h, stream, Get(c, stream) + 1)
  {
    forall a | 0 <= a < |h.nodes| && h.owner[a] == stream
      ensures Own(h, a) < Get(c, stream) + 1
    {
      assert ReachesAny(h.preds, a, frontier[stream]);
      assert ReachesAny(h.preds, a, edges);
    }
  }

  lemma ShapedGrows(h: History, node: Clock, stream: Key, edges: set<nat>)
    requires Shaped(h) && Bounded(h, edges) && Get(node, stream) > 0
    ensures Shaped(Extend(h, node, stream, edges))
  {
    var x := Extend(h, node, stream, edges);
    forall i | 0 <= i < |x.nodes| ensures Own(x, i) > 0 {
      if i < |h.nodes| { assert Own(h, i) > 0; }
    }
    forall i, p | 0 <= i < |x.nodes| && p in x.preds[i] ensures p < i {
      if i < |h.nodes| { assert p in h.preds[i]; }
    }
  }

  lemma NodesGrow(h: History, c: Clock, stream: Key, edges: set<nat>)
    requires NodesCovered(h) && Bounded(h, edges) && Covers(h, c, edges)
    requires Newest(h, stream, Get(c, stream) + 1)
    ensures NodesCovered(Extend(h, Tick(c, stream), stream, edges))
  {
    hide Covers;
    var node := Tick(c, stream);
    var x := Extend(h, node, stream, edges);
    ShapedGrows(h, node, stream, edges);
    CoversNewNode(h, c, edges, stream);
    forall i | 0 <= i < |x.nodes| ensures Covers(x, x.nodes[i], {i}) {
      if i < |h.nodes| { CoversGrow(h, h.nodes[i], {i}, node, stream, edges); }
    }
  }

  lemma StreamsGrow(h: History, streams: map<Key, Clock>, frontier: map<Key, set<nat>>,
                    c: Clock, stream: Key, edges: set<nat>)
    requires Aligned(h) && StreamsCovered(h, streams, frontier)
    requires stream in streams && Bounded(h, edges) && Covers(h, c, edges)
    requires Newest(h, stream, Get(c, stream) + 1)
    ensures var x := Extend(h, Tick(c, stream), stream, edges);
            StreamsCovered(x, streams[stream := Tick(c, stream)], frontier[stream := {|h.nodes|}])
  {
    hide Covers;
    var node := Tick(c, stream);
    var x := Extend(h, node, stream, edges);
    CoversNewNode(h, c, edges, stream);
    var grown, sources := streams[stream := node], frontier[stream := {|h.nodes|}];
    forall k | k in grown ensures Bounded(x, sources[k]) && Covers(x, grown[k], sources[k]) {
      if k != stream { CoversGrow(h, streams[k], frontier[k], node, stream, edges); }
    }
  }

  lemma RecordsGrow(h: History, records: map<Token, Clock>, recorder: map<Token, nat>,
                    node: Clock, stream: Key, edges: set<nat>)
    requires Aligned(h) && RecordsCovered(h, records, recorder)
    requires Newest(h, stream, Get(node, stream))
    ensures RecordsCovered(Extend(h, node, stream, edges), records, recorder)
  {
    hide Covers;
    var x := Extend(h, node, stream, edges);
    forall t | t in records ensures Covers(x, records[t], {recorder[t]}) {
      CoversGrow(h, records[t], {recorder[t]}, node, stream, edges);
    }
  }

  lemma AccountedGrows(h: History, frontier: map<Key, set<nat>>, host: set<nat>,
                       node: Clock, stream: Key, edges: set<nat>)
    requires Aligned(h) && Accounted(h, frontier, host) && Bounded(h, host)
    requires forall k :: k in frontier ==> Bounded(h, frontier[k])
    requires stream in frontier && frontier[stream] <= edges
    ensures Accounted(Extend(h, node, stream, edges), frontier[stream := {|h.nodes|}], host)
  {
    var n := |h.nodes|;
    var x := Extend(h, node, stream, edges);
    var sources := frontier[stream := {n}];
    forall a | 0 <= a < |x.nodes|
      ensures if x.owner[a] in sources then ReachesAny(x.preds, a, sources[x.owner[a]])
              else ReachesAny(x.preds, a, host)
    {
      if a == n {
        assert Reaches(x.preds, n, n) && sources[stream] == {n};
      } else if x.owner[a] == stream {
        var p :| p in frontier[stream] && Reaches(h.preds, a, p);
        ReachesStable(h.preds, [edges], a, p);
        assert x.preds[n] == edges && p in x.preds[n];
        assert Reaches(x.preds, a, n) && sources[stream] == {n};
      } else if x.owner[a] in sources {
        ReachesAnyStable(h.preds, [edges], a, frontier[x.owner[a]]);
      } else {
        ReachesAnyStable(h.preds, [edges], a, host);
      }
    }
    forall k, p | k in sources && p in sources[k] && p < |x.nodes|
      ensures x.owner[p] == k || ReachesAny(x.preds, p, host)
    {
      if k != stream {
        assert p in frontier[k];
        ReachesAnyStable(h.preds, [edges], p, host);
      }
    }
  }

  /** Submitting on a stream whose clock is c keeps the invariant. */
  lemma AddNodeKeepsInv(s: State, g: Graph, stream: Key, c: Clock, edges: set<nat>)
    requires Inv(s, g) && stream in s.streams && g.frontier[stream] <= edges
    requires Bounded(Past(s, g), edges) && Covers(Past(s, g), c, edges)
    ensures Inv(AfterSubmit(s, stream, c), AddNode(g, stream, edges))
  {
    hide Covers, Accounted, Newest;
    var h := Past(s, g);
    var node := Tick(c, stream);
    NextIsNewest(h, stream, c, g.frontier, g.host, edges);
    NodesGrow(h, c, stream, edges);
    StreamsGrow(h, s.streams, g.frontier, c, stream, edges);
    RecordsGrow(h, s.records, g.recorder, node, stream, edges);
    CoversGrow(h, s.completed, g.host, node, stream, edges);
    AccountedGrows(h, g.frontier, g.host, node, stream, edges);
    assert s.streams[stream := node].Keys == s.streams.Keys;
    assert Past(AfterSubmit(s, stream, c), AddNode(g, stream, edges)) == Extend(h, node, stream, edges);
  }

  // ---- every other operation keeps the invariant ----

  lemma AccountedWithMoreRetired(h: History, frontier: map<Key, set<nat>>, host: set<nat>, more: set<nat>)
    requires Aligned(h) && Accounted(h, frontier, host) && host <= more
    ensures Accounted(h, frontier, more)
  {
  }

  lemma AccountedWithNewStream(h: History, frontier: map<Key, set<nat>>, host: set<nat>, key: Key)
    requires Aligned(h) && Accounted(h, frontier, host)
    requires forall a :: 0 <= a < |h.owner| ==> h.owner[a] != key
    ensures Accounted(h, frontier[key := {}], host)
  {
  }

  lemma AccountedWithInherited(h: History, frontier: map<Key, set<nat>>, host: set<nat>, key: Key)
    requires Aligned(h) && Accounted(h, frontier, host) && key in frontier
    ensures Accounted(h, frontier[key := frontier[key] + host], host)
  {
    var sources := frontier[key := frontier[key] + host];
    forall a | 0 <= a < |h.nodes|
      ensures if h.owner[a] in sources then ReachesAny(h.preds, a, sources[h.owner[a]])
              else ReachesAny(h.preds, a, host)
    {
      if h.owner[a] == key {
        var p :| p in frontier[key] && Reaches(h.preds, a, p);
        assert p in sources[key];
      }
    }
    forall p | p in host ensures ReachesAny(h.preds, p, host) {
      assert Reaches(h.preds, p, p);
    }
  }

  lemma AccountedWithoutStream(h: History, frontier: map<Key, set<nat>>, host: set<nat>, key: Key)
    requires Aligned(h) && Accounted(h, frontier, host) && key in frontier
    requires forall p :: p in frontier[key] ==> ReachesAny(h.preds, p, host)
    ensures Accounted(h, frontier - {key}, host)
  {
    forall a | 0 <= a < |h.nodes| && h.owner[a] == key ensures ReachesAny(h.preds, a, host) {
      var p :| p in frontier[key] && Reaches(h.preds, a, p);
      ReachesAnyTransitive(h.preds, a, p, host);
    }
  }

  lemma NewKey(owner: seq<Key>, order: seq<Key>, live: set<Key>, generations: map<nat, nat>, key: Key)
    requires Generations(owner, live, generations) && Ordered(order, live)
    requires key.1 > Get(generations, key.0)
    ensures forall a :: 0 <= a < |owner| ==> owner[a] != key
    ensures Generations(owner, live + {key}, generations[key.0 := key.1])
    ensures key !in live && Ordered(order + [key], live + {key})
  {
  }

  lemma StreamsCoveredWith(h: History, streams: map<Key, Clock>, frontier: map<Key, set<nat>>,
                           key: Key, c: Clock, targets: set<nat>)
    requires Aligned(h) && StreamsCovered(h, streams, frontier)
    requires Bounded(h, targets) && Covers(h, c, targets)
    ensures StreamsCovered(h, streams[key := c], frontier[key := targets])
  {
    hide Covers;
  }

  function FrontiersOf(frontier: map<Key, set<nat>>, order: seq<Key>): set<nat> {
    set k, p | k in order && k in frontier && p in frontier[k] :: p
  }

  lemma {:induction false} JoinAllCovers(h: History, c: Clock, host: set<nat>, streams: map<Key, Clock>,
                      frontier: map<Key, set<nat>>, order: seq<Key>)
    requires Aligned(h) && Covers(h, c, host) && StreamsCovered(h, streams, frontier)
    requires forall k :: k in order ==> k in streams
    ensures Covers(h, JoinAll(c, streams, order), host + FrontiersOf(frontier, order))
  {
    hide Covers;
    if order == [] {
      assert host + FrontiersOf(frontier, order) == host;
    } else {
      var init, last := order[..|order| - 1], order[|order| - 1];
      JoinAllCovers(h, c, host, streams, frontier, init);
      CoversJoin(h, JoinAll(c, streams, init), streams[last], host + FrontiersOf(frontier, init), frontier[last]);
      assert forall k :: k in order <==> k in init || k == last;
      assert host + FrontiersOf(frontier, order) == host + FrontiersOf(frontier, init) + frontier[last];
    }
  }

  lemma AllStreamsCovered(h: History, c: Clock, g: Graph, streams: map<Key, Clock>, order: seq<Key>)
    requires Aligned(h) && Covers(h, c, g.host) && StreamsCovered(h, streams, g.frontier)
    requires Ordered(order, streams.Keys) && Bounded(h, g.host)
    ensures Bounded(h, g.host + AllFrontiers(g))
    ensures Covers(h, JoinAll(c, streams, order), g.host + AllFrontiers(g))
  {
    hide Covers;
    JoinAllCovers(h, c, g.host, streams, g.frontier, order);
    forall p ensures p in FrontiersOf(g.frontier, order) <==> p in AllFrontiers(g) {
      if p in AllFrontiers(g) {
        var k :| k in g.frontier && p in g.frontier[k];
        assert k in order;
      }
    }
    assert FrontiersOf(g.frontier, order) == AllFrontiers(g);
  }

  lemma {:induction false} RemoveMembers(order: seq<Key>, key: Key, live: set<Key>)
    requires Ordered(order, live)
    ensures Ordered(Remove(order, key), live - {key})
  {
    if order != [] {
      var rest := live - {order[0]};
      assert forall k :: k in order[1..] <==> k in rest;
      RemoveMembers(order[1..], key, rest);
      if order[0] == key {
        assert live - {key} == rest;
      } else {
        assert live - {key} == {order[0]} + (rest - {key});
      }
    }
  }

  /** The invariant as its parts, for the proofs below, which keep the parts closed. */
  lemma InvParts(s: State, g: Graph)
    requires Inv(s, g)
    ensures var h := Past(s, g);
            && Aligned(h) && NodesCovered(h)
            && StreamsCovered(h, s.streams, g.frontier) && g.frontier.Keys == s.streams.Keys
            && RecordsCovered(h, s.records, g.recorder) && g.recorder.Keys == s.records.Keys
            && Bounded(h, g.host) && Covers(h, s.completed, g.host)
            && Accounted(h, g.frontier, g.host)
            && Generations(g.owner, s.streams.Keys, s.streamGenerations)
            && Ordered(s.order, s.streams.Keys)
  {
    hide Covers, Accounted;
  }

  /** The clocks that an operation may read, and what they cover. */
  lemma ClocksInUse(s: State, g: Graph, stream: Key, token: Token)
    requires Inv(s, g)
    ensures Aligned(Past(s, g)) && g.frontier.Keys == s.streams.Keys && g.recorder.Keys == s.records.Keys
    ensures stream in s.streams ==>
              Bounded(Past(s, g), g.frontier[stream]) && Covers(Past(s, g), s.streams[stream], g.frontier[stream])
    ensures token in s.records ==>
              && Bounded(Past(s, g), {g.recorder[token]}) && g.recorder[token] < |s.nodes|
              && Covers(Past(s, g), s.records[token], {g.recorder[token]})
  {
    hide Covers, Accounted;
  }

  lemma NothingBounded(s: State, g: Graph)
    requires Inv(s, g)
    ensures Shaped(Past(s, g)) && Bounded(Past(s, g), {})
  {
    hide Covers, Accounted, StreamsCovered, RecordsCovered, Generations, Ordered;
  }

  lemma CreateStreamKeepsInv(s: State, g: Graph, key: Key)
    requires Inv(s, g) && key.1 > Get(s.streamGenerations, key.0)
    ensures Inv(s.(streams := s.streams[key := map[]], order := s.order + [key],
                   streamGenerations := s.streamGenerations[key.0 := key.1]),
                g.(frontier := g.frontier[key := {}]))
  {
    hide NodesCovered, StreamsCovered, RecordsCovered, Covers, Accounted, Generations, Ordered, Bounded, Shaped;
    var h := Past(s, g);
    InvParts(s, g);
    assert s.streams[key := map[]].Keys == s.streams.Keys + {key};
    NothingBounded(s, g);
    CoversNothing(h);
    StreamsCoveredWith(h, s.streams, g.frontier, key, map[], {});
    NewKey(g.owner, s.order, s.streams.Keys, s.streamGenerations, key);
    AccountedWithNewStream(h, g.frontier, g.host, key);
  }

  lemma InheritKeepsInv(s: State, g: Graph, key: Key)
    requires Inv(s, g) && key in s.streams
    ensures Inv(s.(streams := s.streams[key := Join(s.streams[key], s.completed)]),
                g.(frontier := g.frontier[key := g.frontier[key] + g.host]))
  {
    var h := Past(s, g);
    InvParts(s, g);
    ClocksInUse(s, g, key, Token(key, 0));
    assert Bounded(h, g.frontier[key] + g.host);
    hide NodesCovered, StreamsCovered, RecordsCovered, Covers, Accounted, Generations, Ordered, Bounded, Join;
    var c := Join(s.streams[key], s.completed);
    assert s.streams[key := c].Keys == s.streams.Keys;
    CoversJoin(h, s.streams[key], s.completed, g.frontier[key], g.host);
    StreamsCoveredWith(h, s.streams, g.frontier, key, c, g.frontier[key] + g.host);
    AccountedWithInherited(h, g.frontier, g.host, key);
  }

  /** What the host has witnessed grows. */
  lemma CompletedKeepsInv(s: State, g: Graph, c: Clock, host: set<nat>)
    requires Inv(s, g) && g.host <= host && Bounded(Past(s, g), host) && Covers(Past(s, g), c, host)
    ensures Inv(s.(completed := c), g.(host := host))
  {
    InvParts(s, g);
    hide NodesCovered, StreamsCovered, RecordsCovered, Covers, Accounted, Generations, Ordered, Bounded;
    AccountedWithMoreRetired(Past(s, g), g.frontier, g.host, host);
  }

  lemma CompleteKeepsInv(s: State, g: Graph, c: Clock, targets: set<nat>)
    requires Inv(s, g) && Bounded(Past(s, g), targets) && Covers(Past(s, g), c, targets)
    ensures Inv(s.(completed := Join(s.completed, c)), g.(host := g.host + targets))
  {
    InvParts(s, g);
    assert Bounded(Past(s, g), g.host + targets);
    hide Inv, NodesCovered, StreamsCovered, RecordsCovered, Covers, Accounted, Generations, Ordered, Bounded, Join;
    CoversJoin(Past(s, g), s.completed, c, g.host, targets);
    CompletedKeepsInv(s, g, Join(s.completed, c), g.host + targets);
  }

  lemma SynchronizeStreamKeepsInv(s: State, g: Graph, key: Key)
    requires Inv(s, g) && key in s.streams
    ensures Inv(s.(completed := Join(s.completed, s.streams[key])), g.(host := g.host + g.frontier[key]))
  {
    ClocksInUse(s, g, key, Token(key, 0));
    hide Inv, Covers, Bounded, Join;
    CompleteKeepsInv(s, g, s.streams[key], g.frontier[key]);
  }

  lemma QueryKeepsInv(s: State, g: Graph, token: Token)
    requires Inv(s, g) && token in s.records
    ensures Inv(s.(completed := Join(s.completed, s.records[token])), g.(host := g.host + {g.recorder[token]}))
  {
    ClocksInUse(s, g, token.event, token);
    hide Inv, Covers, Bounded, Join;
    CompleteKeepsInv(s, g, s.records[token], {g.recorder[token]});
  }

  lemma SynchronizeContextKeepsInv(s: State, g: Graph)
    requires Inv(s, g)
    ensures Inv(s.(completed := JoinAll(s.completed, s.streams, s.order)), g.(host := g.host + AllFrontiers(g)))
  {
    InvParts(s, g);
    hide Inv, NodesCovered, StreamsCovered, RecordsCovered, Covers, Accounted, Generations, Ordered, Bounded, JoinAll,
         AllFrontiers;
    AllStreamsCovered(Past(s, g), s.completed, g, s.streams, s.order);
    CompletedKeepsInv(s, g, JoinAll(s.completed, s.streams, s.order), g.host + AllFrontiers(g));
  }

  /** The test made by destroy_stream is that everything the stream waits for is retired. */
  lemma DestroyStreamKeepsInv(s: State, g: Graph, key: Key)
    requires Inv(s, g) && key in s.streams && Within(s.streams[key], s.completed)
    ensures Inv(s.(streams := s.streams - {key}, order := Remove(s.order, key)),
                g.(frontier := g.frontier - {key}))
  {
    hide NodesCovered, StreamsCovered, RecordsCovered, Covers, Accounted, Generations, Ordered, Bounded, Within, Remove;
    InvParts(s, g);
    WithoutStream(Past(s, g), s, g, key);
  }

  lemma WithoutStream(h: History, s: State, g: Graph, key: Key)
    requires Inv(s, g) && h == Past(s, g) && key in s.streams && Within(s.streams[key], s.completed)
    ensures Aligned(h) && StreamsCovered(h, s.streams - {key}, g.frontier - {key})
    ensures Accounted(h, g.frontier - {key}, g.host)
    ensures Generations(g.owner, (s.streams - {key}).Keys, s.streamGenerations)
    ensures Ordered(Remove(s.order, key), (s.streams - {key}).Keys)
  {
    hide Inv, NodesCovered, StreamsCovered, RecordsCovered, Covers, Accounted, Generations, Ordered, Bounded, Within,
         Remove;
    InvParts(s, g);
    DestroyedIsRetired(h, s, g, key);
    StreamsCoveredWithout(h, s.streams, g.frontier, key);
    GenerationsWithout(g.owner, s.streams.Keys, s.streamGenerations, key);
    AccountedWithoutStream(h, g.frontier, g.host, key);
    RemoveMembers(s.order, key, s.streams.Keys);
    assert (s.streams - {key}).Keys == s.streams.Keys - {key};
  }

  lemma GenerationsWithout(owner: seq<Key>, live: set<Key>, generations: map<nat, nat>, key: Key)
    requires Generations(owner, live, generations)
    ensures Generations(owner, live - {key}, generations)
  {
  }

  lemma DestroyedIsRetired(h: History, s: State, g: Graph, key: Key)
    requires Inv(s, g) && h == Past(s, g) && key in s.streams && Within(s.streams[key], s.completed)
    ensures forall p :: p in g.frontier[key] ==> ReachesAny(h.preds, p, g.host)
  {
    InvParts(s, g);
    ClocksInUse(s, g, key, Token(key, 0));
    hide Inv, Covers, Bounded, Within;
    WithinIsReachability(h, s.streams[key], s.completed, g.frontier[key], g.host);
  }

  lemma StreamsCoveredWithout(h: History, streams: map<Key, Clock>, frontier: map<Key, set<nat>>, key: Key)
    requires Aligned(h) && StreamsCovered(h, streams, frontier)
    ensures StreamsCovered(h, streams - {key}, frontier - {key})
  {
    hide Covers;
  }

  lemma NameRecordKeepsInv(s: State, g: Graph, token: Token, node: nat, events: map<Key, nat>)
    requires Inv(s, g) && node < |s.nodes|
    ensures Inv(s.(records := s.records[token := s.nodes[node]], events := events),
                g.(recorder := g.recorder[token := node]))
  {
    InvParts(s, g);
    assert Covers(Past(s, g), s.nodes[node], {node});
    hide NodesCovered, StreamsCovered, Covers, Accounted, Generations, Ordered, Bounded;
  }

  lemma SubmitKeepsInv(s: State, g: Graph, stream: Key)
    requires Inv(s, g) && stream in s.streams
    ensures Inv(AfterSubmit(s, stream, s.streams[stream]), AddNode(g, stream, g.frontier[stream]))
  {
    ClocksInUse(s, g, stream, Token(stream, 0));
    hide Inv, Covers, Bounded;
    AddNodeKeepsInv(s, g, stream, s.streams[stream], g.frontier[stream]);
  }

  lemma RecordKeepsInv(s: State, g: Graph, event: Key, stream: Key)
    requires Inv(s, g) && event in s.events && stream in s.streams
    requires stream in g.frontier && |g.preds| == |s.nodes|
    ensures var token := Token(event, s.events[event] + 1);
            Inv(AfterRecord(s, event, stream), AddRecord(g, stream, token))
  {
    hide Inv, Tick;
    SubmitKeepsInv(s, g, stream);
    NameRecordKeepsInv(AfterSubmit(s, stream, s.streams[stream]), AddNode(g, stream, g.frontier[stream]),
                       Token(event, s.events[event] + 1), |s.nodes|, s.events[event := s.events[event] + 1]);
  }

  lemma WaitKeepsInv(s: State, g: Graph, stream: Key, token: Token)
    requires Inv(s, g) && token in s.records && stream in s.streams
    ensures Inv(AfterSubmit(s, stream, Join(s.streams[stream], s.records[token])),
                AddNode(g, stream, g.frontier[stream] + {g.recorder[token]}))
  {
    ClocksInUse(s, g, stream, token);
    var edges := g.frontier[stream] + {g.recorder[token]};
    assert Bounded(Past(s, g), edges);
    hide Inv, Covers, Bounded, Join, AfterSubmit, AddNode;
    CoversJoin(Past(s, g), s.streams[stream], s.records[token], g.frontier[stream], {g.recorder[token]});
    AddNodeKeepsInv(s, g, stream, Join(s.streams[stream], s.records[token]), edges);
  }

  /** Changing nothing the invariant speaks of keeps it. */
  lemma IrrelevantKeepsInv(s: State, g: Graph, t: State)
    requires Inv(s, g)
    requires t == s.(events := t.events, eventGenerations := t.eventGenerations, sealed := t.sealed,
                     poisoned := t.poisoned)
    ensures Inv(t, g)
  {
    hide Covers, Accounted, NodesCovered, StreamsCovered, RecordsCovered;
    assert Past(t, g) == Past(s, g);
  }

  lemma SameKeys(s: State, g: Graph)
    requires Inv(s, g)
    ensures g.frontier.Keys == s.streams.Keys && g.recorder.Keys == s.records.Keys
    ensures |g.preds| == |s.nodes|
  {
    hide Covers, Accounted;
  }

  /** What the checks of an accepted operation have established. */
  lemma AcceptedFacts(s: State, op: Op)
    requires FaultOf(s, op).None?
    ensures match op
            case CreateStream(key) => key.1 > Get(s.streamGenerations, key.0)
            case Submit(stream) => stream in s.streams
            case Record(event, stream) => event in s.events && stream in s.streams
            case Wait(stream, token) => stream in s.streams && token in s.records
            case Query(token, _) => token in s.records
            case SynchronizeStream(key, _) => key in s.streams
            case InheritHostRetirements(key) => key in s.streams
            case DestroyStream(key) => key in s.streams && Within(s.streams[key], s.completed)
            case _ => true
  {
  }

  // The accepted branch of `Step`, operation by operation.

  lemma CreateStreamStep(s: State, g: Graph, op: Op)
    requires Inv(s, g) && op.CreateStream? && FaultOf(s, op).None?
    ensures Inv(Apply(s, op), Track(g, op, Answer(s, op)))
  {
    hide Inv, FaultOf;
    AcceptedFacts(s, op);
    CreateStreamKeepsInv(s, g, op.key);
  }

  lemma SubmitStep(s: State, g: Graph, op: Op)
    requires Inv(s, g) && op.Submit? && FaultOf(s, op).None?
    ensures Inv(Apply(s, op), Track(g, op, Answer(s, op)))
  {
    hide Inv, FaultOf, AfterSubmit, AddNode;
    AcceptedFacts(s, op);
    SameKeys(s, g);
    SubmitKeepsInv(s, g, op.stream);
  }

  lemma RecordStep(s: State, g: Graph, op: Op)
    requires Inv(s, g) && op.Record? && FaultOf(s, op).None?
    ensures Inv(Apply(s, op), Track(g, op, Answer(s, op)))
  {
    hide Inv, FaultOf, AddRecord, AfterRecord;
    AcceptedFacts(s, op);
    SameKeys(s, g);
    RecordKeepsInv(s, g, op.event, op.stream);
  }

  lemma WaitStep(s: State, g: Graph, op: Op)
    requires Inv(s, g) && op.Wait? && FaultOf(s, op).None?
    ensures Inv(Apply(s, op), Track(g, op, Answer(s, op)))
  {
    hide Inv, FaultOf, AfterSubmit, AddNode, Join;
    AcceptedFacts(s, op);
    SameKeys(s, g);
    WaitKeepsInv(s, g, op.stream, op.token);
  }

  lemma QueryStep(s: State, g: Graph, op: Op)
    requires Inv(s, g) && op.Query? && FaultOf(s, op).None?
    ensures Inv(Apply(s, op), Track(g, op, Answer(s, op)))
  {
    hide Inv, FaultOf, Join;
    AcceptedFacts(s, op);
    SameKeys(s, g);
    QueryKeepsInv(s, g, op.token);
  }

  lemma SynchronizeStreamStep(s: State, g: Graph, op: Op)
    requires Inv(s, g) && op.SynchronizeStream? && FaultOf(s, op).None?
    ensures Inv(Apply(s, op), Track(g, op, Answer(s, op)))
  {
    hide Inv, FaultOf, Join;
    AcceptedFacts(s, op);
    SameKeys(s, g);
    SynchronizeStreamKeepsInv(s, g, op.key);
  }

  lemma InheritStep(s: State, g: Graph, op: Op)
    requires Inv(s, g) && op.InheritHostRetirements? && FaultOf(s, op).None?
    ensures Inv(Apply(s, op), Track(g, op, Answer(s, op)))
  {
    hide Inv, FaultOf, Join;
    AcceptedFacts(s, op);
    SameKeys(s, g);
    InheritKeepsInv(s, g, op.key);
  }

  lemma DestroyStreamStep(s: State, g: Graph, op: Op)
    requires Inv(s, g) && op.DestroyStream? && FaultOf(s, op).None?
    ensures Inv(Apply(s, op), Track(g, op, Answer(s, op)))
  {
    hide Inv, FaultOf, Within, Remove;
    AcceptedFacts(s, op);
    DestroyStreamKeepsInv(s, g, op.key);
  }

  lemma SynchronizeContextStep(s: State, g: Graph, op: Op)
    requires Inv(s, g) && op.SynchronizeContext? && FaultOf(s, op).None?
    ensures Inv(Apply(s, op), Track(g, op, Answer(s, op)))
  {
    hide Inv, FaultOf, JoinAll, AllFrontiers;
    SynchronizeContextKeepsInv(s, g);
  }

  lemma EventKeepsInv(s: State, g: Graph, op: Op)
    requires Inv(s, g) && FaultOf(s, op).None?
    requires op.CreateEvent? || op.DestroyEvent? || op.SealSubmissions?
    ensures Inv(Apply(s, op), Track(g, op, Answer(s, op)))
  {
    hide Inv, FaultOf;
    IrrelevantKeepsInv(s, g, Apply(s, op));
  }

  /** A stream key is never used twice, so the generation test is a freshness test. */
  lemma StepKeepsInv(s: State, g: Graph, op: Op)
    requires Inv(s, g)
    ensures var (t, r) := Step(s, op); Inv(t, Track(g, op, r))
  {
    hide Inv, FaultOf, Apply;
    if FaultOf(s, op).Some? {
      IrrelevantKeepsInv(s, g, Step(s, op).0);
    } else {
      match op
      case CreateStream(_) => CreateStreamStep(s, g, op);
      case Submit(_) => SubmitStep(s, g, op);
      case Record(_, _) => RecordStep(s, g, op);
      case Wait(_, _) => WaitStep(s, g, op);
      case Query(_, _) => QueryStep(s, g, op);
      case SynchronizeStream(_, _) => SynchronizeStreamStep(s, g, op);
      case InheritHostRetirements(_) => InheritStep(s, g, op);
      case SynchronizeContext(_) => SynchronizeContextStep(s, g, op);
      case DestroyStream(_) => DestroyStreamStep(s, g, op);
      case _ => EventKeepsInv(s, g, op);
    }
  }

  // ---- every run ----

  /** The state and the graph after `ops`, rejected operations included. */
  function Run(ops: seq<Op>): (State, Graph) {
    if ops == [] then (INITIAL, EMPTY_GRAPH)
    else
      var (s, g) := Run(ops[..|ops| - 1]);
      var (t, r) := Step(s, ops[|ops| - 1]);
      (t, Track(g, ops[|ops| - 1], r))
  }

  lemma {:induction false} RunKeepsInv(ops: seq<Op>)
    ensures Inv(Run(ops).0, Run(ops).1)
  {
    if ops == [] {
      InvInitially();
    } else {
      hide Inv, Step, Track;
      var (s, g) := Run(ops[..|ops| - 1]);
      RunKeepsInv(ops[..|ops| - 1]);
      StepKeepsInv(s, g, ops[|ops| - 1]);
    }
  }

  lemma NodeClock(s: State, g: Graph, node: nat)
    requires Inv(s, g) && KnownNode(s, node)
    ensures Aligned(Past(s, g)) && Covers(Past(s, g), s.nodes[node - 1], {node - 1})
    ensures Bounded(Past(s, g), {node - 1})
  {
    hide Covers, Accounted;
  }

  lemma HostClock(s: State, g: Graph)
    requires Inv(s, g)
    ensures Aligned(Past(s, g)) && Covers(Past(s, g), s.completed, g.host) && Bounded(Past(s, g), g.host)
  {
    hide Covers, Accounted;
  }

  lemma PrecedesInState(s: State, g: Graph, a: nat, b: nat)
    requires Inv(s, g) && KnownNode(s, a) && KnownNode(s, b)
    ensures Precedes(s, a, b) == Some(Reaches(g.preds, a - 1, b - 1))
  {
    hide Inv, Covers, Bounded, Within;
    NodeClock(s, g, a);
    NodeClock(s, g, b);
    WithinIsReachability(Past(s, g), s.nodes[a - 1], s.nodes[b - 1], {a - 1}, {b - 1});
    assert ReachesAny(g.preds, a - 1, {b - 1}) <==> Reaches(g.preds, a - 1, b - 1);
  }

  lemma RetiredInState(s: State, g: Graph, node: nat)
    requires Inv(s, g) && KnownNode(s, node)
    ensures Retired(s, node) == Some(!s.poisoned && ReachesAny(g.preds, node - 1, g.host))
  {
    hide Inv, Covers, Bounded, Within;
    NodeClock(s, g, node);
    HostClock(s, g);
    WithinIsReachability(Past(s, g), s.nodes[node - 1], s.completed, {node - 1}, g.host);
  }

  /** In every reachable state a node precedes exactly the nodes it reaches: along stream
      order, from a record to the waits that consumed it, and from a completion the host
      witnessed to the submissions that inherited it. */
  lemma PrecedesIsReachability(ops: seq<Op>, a: nat, b: nat)
    ensures Precedes(Run(ops).0, a, b) ==
            if KnownNode(Run(ops).0, a) && KnownNode(Run(ops).0, b)
            then Some(Reaches(Run(ops).1.preds, a - 1, b - 1)) else None
  {
    var (s, g) := Run(ops);
    RunKeepsInv(ops);
    hide Inv, Run;
    if KnownNode(s, a) && KnownNode(s, b) {
      PrecedesInState(s, g, a, b);
    }
  }

  lemma PrecedesIsPartialOrder(ops: seq<Op>, a: nat, b: nat, c: nat)
    requires KnownNode(Run(ops).0, a) && KnownNode(Run(ops).0, b) && KnownNode(Run(ops).0, c)
    ensures var s := Run(ops).0;
            && Precedes(s, a, a) == Some(true)
            && (Precedes(s, a, b) == Some(true) && Precedes(s, b, a) == Some(true) ==> a == b)
            && (Precedes(s, a, b) == Some(true) && Precedes(s, b, c) == Some(true) ==> Precedes(s, a, c) == Some(true))
  {
    hide Run, Precedes;
    var preds := Run(ops).1.preds;
    PrecedesIsReachability(ops, a, a);
    PrecedesIsReachability(ops, a, b);
    PrecedesIsReachability(ops, b, a);
    PrecedesIsReachability(ops, b, c);
    PrecedesIsReachability(ops, a, c);
    if Reaches(preds, a - 1, b - 1) { ReachesOrder(preds, a - 1, b - 1); }
    if Reaches(preds, b - 1, a - 1) { ReachesOrder(preds, b - 1, a - 1); }
    if Reaches(preds, a - 1, b - 1) && Reaches(preds, b - 1, c - 1) {
      ReachesTransitive(preds, a - 1, b - 1, c - 1);
    }
  }

  /** Nothing that was submitted or witnessed is ever taken back. */
  ghost predicate Continues(s: State, g: Graph, t: State, h: Graph) {
    && s.nodes <= t.nodes && g.preds <= h.preds && g.owner <= h.owner
    && g.host <= h.host && (s.poisoned ==> t.poisoned)
  }

  lemma StepExtends(s: State, op: Op)
    ensures s.nodes <= Step(s, op).0.nodes && (s.poisoned ==> Step(s, op).0.poisoned)
  {
    hide FaultOf, Join, JoinAll, Remove, Tick, Poisons;
  }

  lemma TrackExtends(g: Graph, op: Op, r: Outcome)
    ensures var h := Track(g, op, r);
            g.preds <= h.preds && g.owner <= h.owner && g.host <= h.host
  {
    hide AllFrontiers;
  }

  lemma StepContinues(s: State, g: Graph, op: Op)
    ensures Continues(s, g, Step(s, op).0, Track(g, op, Step(s, op).1))
  {
    hide Step, Track;
    StepExtends(s, op);
    TrackExtends(g, op, Step(s, op).1);
  }

  lemma RunOneMore(ops: seq<Op>, op: Op)
    ensures var (s, g) := Run(ops);
            Run(ops + [op]) == (Step(s, op).0, Track(g, op, Step(s, op).1))
  {
    hide Step, Track;
    assert (ops + [op])[..|ops|] == ops;
  }

  lemma ContinuesTransitive(s: State, g: Graph, t: State, h: Graph, u: State, i: Graph)
    requires Continues(s, g, t, h) && Continues(t, h, u, i)
    ensures Continues(s, g, u, i)
  {
  }

  lemma {:induction false} RunContinues(ops: seq<Op>, more: seq<Op>)
    ensures Continues(Run(ops).0, Run(ops).1, Run(ops + more).0, Run(ops + more).1)
    decreases |more|
  {
    if more == [] {
      assert ops + more == ops;
    } else {
      hide Run, Continues, Step, Track;
      var init, last := more[..|more| - 1], more[|more| - 1];
      assert ops + more == ops + init + [last];
      RunContinues(ops, init);
      var (s, g) := Run(ops);
      var (t, h) := Run(ops + init);
      StepContinues(t, h, last);
      RunOneMore(ops + init, last);
      ContinuesTransitive(s, g, t, h, Step(t, last).0, Track(h, last, Step(t, last).1));
    }
  }

  /** No later operation changes an answer: not a re-record, not a destroyed event. */
  lemma PrecedesIsFinal(ops: seq<Op>, more: seq<Op>, a: nat, b: nat)
    requires KnownNode(Run(ops).0, a) && KnownNode(Run(ops).0, b)
    ensures Precedes(Run(ops + more).0, a, b) == Precedes(Run(ops).0, a, b)
  {
    RunContinues(ops, more);
    hide Run;
  }

  /** A node counts as retired exactly when the host has witnessed a node it reaches. */
  lemma RetiredIsWitnessed(ops: seq<Op>, node: nat)
    requires KnownNode(Run(ops).0, node)
    ensures var (s, g) := Run(ops);
            Retired(s, node) == Some(!s.poisoned && ReachesAny(g.preds, node - 1, g.host))
  {
    RunKeepsInv(ops);
    hide Inv, Run;
    RetiredInState(Run(ops).0, Run(ops).1, node);
  }

  /** The cut is consistent: the node's own stream component decides. */
  lemma RetiredByOwnComponent(ops: seq<Op>, node: nat)
    requires KnownNode(Run(ops).0, node)
    ensures var (s, g) := Run(ops);
            && OwnerOf(g, node).Some?
            && var stream := OwnerOf(g, node).value;
            Retired(s, node) == Some(!s.poisoned && Get(s.nodes[node - 1], stream) <= Get(s.completed, stream))
  {
    var (s, g) := Run(ops);
    RetiredIsWitnessed(ops, node);
    RunKeepsInv(ops);
    InvParts(s, g);
    hide Inv, Run;
    assert Own(Past(s, g), node - 1) == Get(s.nodes[node - 1], g.owner[node - 1]);
  }

  lemma RetirementPersists(ops: seq<Op>, more: seq<Op>, node: nat)
    requires Retired(Run(ops).0, node) == Some(true) && !Run(ops + more).0.poisoned
    ensures Retired(Run(ops + more).0, node) == Some(true)
  {
    var (s, g) := Run(ops);
    var (t, h) := Run(ops + more);
    hide Run, Inv;
    RunContinues(ops, more);
    RetiredIsWitnessed(ops, node);
    RetiredIsWitnessed(ops + more, node);
    RunKeepsInv(ops);
    RetiredStays(s, g, h, node - 1);
  }

  lemma RetiredStays(s: State, g: Graph, h: Graph, node: nat)
    requires Inv(s, g) && g.preds <= h.preds && g.host <= h.host
    requires ReachesAny(g.preds, node, g.host)
    ensures ReachesAny(h.preds, node, h.host)
  {
    HostClock(s, g);
    hide Inv, Covers;
    ReachesAnyStable(g.preds, h.preds[|g.preds|..], node, g.host);
    assert g.preds + h.preds[|g.preds|..] == h.preds;
  }

  /** Every node submitted on the stream is retired. */
  ghost predicate StreamRetired(s: State, owner: seq<Key>, key: Key) {
    forall a :: 0 <= a < |owner| && owner[a] == key ==> Retired(s, a + 1) == Some(true)
  }

  /** destroy_stream accepts a live stream exactly when all its nodes are retired. */
  lemma DestroyStreamExact(ops: seq<Op>, key: Key)
    requires ValidKey(key) && key in Run(ops).0.streams && !Run(ops).0.poisoned
    ensures var (s, g) := Run(ops);
            FaultOf(s, DestroyStream(key)).None? <==> StreamRetired(s, g.owner, key)
  {
    hide Inv, Run, Within, StreamRetired;
    RunKeepsInv(ops);
    var (s, g) := Run(ops);
    WaitsForRetired(s, g, key);
    StreamRetiredInState(s, g, key);
  }

  lemma WaitsForRetired(s: State, g: Graph, key: Key)
    requires Inv(s, g) && key in s.streams
    ensures |g.owner| == |s.nodes|
    ensures Within(s.streams[key], s.completed) <==>
            (forall a :: 0 <= a < |s.nodes| && g.owner[a] == key ==> ReachesAny(g.preds, a, g.host))
  {
    hide Inv, NodesCovered, StreamsCovered, RecordsCovered, Covers, Accounted, Generations, Ordered, Bounded, Within;
    InvParts(s, g);
    ClocksInUse(s, g, key, Token(key, 0));
    WithinIsReachability(Past(s, g), s.streams[key], s.completed, g.frontier[key], g.host);
    FrontierRetired(Past(s, g), g.frontier, g.host, key);
  }

  lemma StreamRetiredInState(s: State, g: Graph, key: Key)
    requires Inv(s, g) && !s.poisoned
    ensures |g.owner| == |s.nodes|
    ensures StreamRetired(s, g.owner, key) <==>
            (forall a :: 0 <= a < |s.nodes| && g.owner[a] == key ==> ReachesAny(g.preds, a, g.host))
  {
    hide Inv, Retired;
    HostClock(s, g);
    forall a | 0 <= a < |s.nodes|
      ensures Retired(s, a + 1) == Some(true) <==> ReachesAny(g.preds, a, g.host)
    {
      RetiredInState(s, g, a + 1);
    }
  }

  /** A stream waits for nothing unretired beyond its own nodes. */
  lemma FrontierRetired(h: History, frontier: map<Key, set<nat>>, host: set<nat>, key: Key)
    requires Aligned(h) && Accounted(h, frontier, host) && key in frontier && Bounded(h, frontier[key])
    ensures (forall p :: p in frontier[key] ==> ReachesAny(h.preds, p, host)) <==>
            (forall a :: 0 <= a < |h.nodes| && h.owner[a] == key ==> ReachesAny(h.preds, a, host))
  {
    if forall p :: p in frontier[key] ==> ReachesAny(h.preds, p, host) {
      forall a | 0 <= a < |h.nodes| && h.owner[a] == key ensures ReachesAny(h.preds, a, host) {
        var p :| p in frontier[key] && Reaches(h.preds, a, p);
        ReachesAnyTransitive(h.preds, a, p, host);
      }
    }
  }

  /** A successful context synchronization retires every node ever submitted, those of
      destroyed streams included. */
  lemma ContextSyncRetiresAll(ops: seq<Op>, node: nat)
    requires FaultOf(Run(ops).0, SynchronizeContext(Success)).None? && KnownNode(Run(ops).0, node)
    ensures Retired(Run(ops + [SynchronizeContext(Success)]).0, node) == Some(true)
  {
    hide Run, Inv, FaultOf, Retired, Step, Track, ReachesAny;
    var op := SynchronizeContext(Success);
    var (s, g) := Run(ops);
    RunKeepsInv(ops);
    ContextSyncStep(s, g);
    AllReachHost(s, g, node - 1);
    RunOneMore(ops, op);
    RetiredIsWitnessed(ops + [op], node);
  }

  lemma ContextSyncStep(s: State, g: Graph)
    requires FaultOf(s, SynchronizeContext(Success)).None?
    ensures var (t, r) := Step(s, SynchronizeContext(Success));
            && t.nodes == s.nodes && !t.poisoned
            && Track(g, SynchronizeContext(Success), r) == g.(host := g.host + AllFrontiers(g))
  {
    hide JoinAll, AllFrontiers;
  }

  lemma AllReachHost(s: State, g: Graph, a: nat)
    requires Inv(s, g) && a < |s.nodes|
    ensures ReachesAny(g.preds, a, g.host + AllFrontiers(g))
  {
    InvParts(s, g);
    hide Inv, NodesCovered, RecordsCovered, StreamsCovered, Covers, Generations, Ordered;
    if g.owner[a] in g.frontier {
      var p :| p in g.frontier[g.owner[a]] && Reaches(g.preds, a, p);
      assert p in AllFrontiers(g);
    }
  }

  ghost predicate StreamsOrdered(preds: seq<set<nat>>, owner: seq<Key>)
    requires |preds| == |owner|
  {
    forall a, b :: 0 <= a <= b < |owner| && owner[a] == owner[b] ==> Reaches(preds, a, b)
  }

  lemma OrderedWithNewNode(h: History, frontier: map<Key, set<nat>>, host: set<nat>, stream: Key, edges: set<nat>)
    requires Aligned(h) && Accounted(h, frontier, host) && stream in frontier
    requires Bounded(h, edges) && frontier[stream] <= edges && StreamsOrdered(h.preds, h.owner)
    ensures StreamsOrdered(h.preds + [edges], h.owner + [stream])
  {
    var n, preds, owner := |h.nodes|, h.preds + [edges], h.owner + [stream];
    forall a, b | 0 <= a <= b < |owner| && owner[a] == owner[b] ensures Reaches(preds, a, b) {
      if b < n {
        ReachesStable(h.preds, [edges], a, b);
      } else if a < n {
        var p :| p in frontier[stream] && Reaches(h.preds, a, p);
        ReachesStable(h.preds, [edges], a, p);
        assert p in preds[n];
      }
    }
  }

  /** The nodes an accepted operation adds, if it adds one. */
  predicate Adds(g: Graph, h: Graph, stream: Key, edges: set<nat>) {
    stream in g.frontier && g.frontier[stream] <= edges
    && h.preds == g.preds + [edges] && h.owner == g.owner + [stream]
  }

  lemma TrackShape(g: Graph, op: Op, r: Outcome)
    ensures var h := Track(g, op, r);
            (h.preds == g.preds && h.owner == g.owner) || exists stream, edges :: Adds(g, h, stream, edges)
  {
    hide AllFrontiers;
    var h := Track(g, op, r);
    match op
    case Submit(stream) => assert !Mentions(g, op) || r.Rejected? || Adds(g, h, stream, g.frontier[stream]);
    case Record(_, stream) => assert !Mentions(g, op) || !r.NewRecord? || Adds(g, h, stream, g.frontier[stream]);
    case Wait(stream, token) =>
      assert !Mentions(g, op) || r.Rejected? || Adds(g, h, stream, g.frontier[stream] + {g.recorder[token]});
    case _ =>
  }

  lemma StepOrders(s: State, g: Graph, t: State, h: Graph)
    requires Inv(s, g) && Inv(t, h) && |g.preds| == |g.owner| && StreamsOrdered(g.preds, g.owner)
    requires (h.preds == g.preds && h.owner == g.owner) || exists stream, edges :: Adds(g, h, stream, edges)
    ensures |h.preds| == |h.owner| && StreamsOrdered(h.preds, h.owner)
  {
    if stream, edges :| Adds(g, h, stream, edges) {
      NewEdgesBounded(s, g, t, h, edges);
      InvParts(s, g);
      hide Inv, StreamsOrdered, NodesCovered, StreamsCovered, RecordsCovered, Covers, Accounted, Bounded;
      OrderedWithNewNode(Past(s, g), g.frontier, g.host, stream, edges);
    }
  }

  lemma NewEdgesBounded(s: State, g: Graph, t: State, h: Graph, edges: set<nat>)
    requires Inv(s, g) && Inv(t, h) && h.preds == g.preds + [edges]
    ensures Bounded(Past(s, g), edges)
  {
    hide Covers, Accounted, StreamsCovered, RecordsCovered;
    assert h.preds[|g.preds|] == edges;
  }

  /** Of two nodes of one stream, the earlier precedes the later. */
  lemma {:induction false} StreamOrder(ops: seq<Op>)
    ensures var g := Run(ops).1; |g.preds| == |g.owner| && StreamsOrdered(g.preds, g.owner)
  {
    if ops != [] {
      hide Inv, Step, Track, StreamsOrdered;
      var init, op := ops[..|ops| - 1], ops[|ops| - 1];
      var (s, g) := Run(init);
      StreamOrder(init);
      RunKeepsInv(init);
      StepKeepsInv(s, g, op);
      TrackShape(g, op, Step(s, op).1);
      StepOrders(s, g, Step(s, op).0, Track(g, op, Step(s, op).1));
    }
  }

  /** A witnessed stream synchronization retires every node of that stream. */
  lemma StreamSyncRetires(ops: seq<Op>, key: Key, node: nat)
    requires FaultOf(Run(ops).0, SynchronizeStream(key, Success)).None?
    requires OwnerOf(Run(ops).1, node) == Some(key)
    ensures Retired(Run(ops + [SynchronizeStream(key, Success)]).0, node) == Some(true)
  {
    var op := SynchronizeStream(key, Success);
    hide Run, Inv;
    RunKeepsInv(ops);
    OwnersAreNodes(Run(ops).0, Run(ops).1);
    SyncWitnesses(Run(ops).0, Run(ops).1, key, node - 1);
    hide FaultOf, Retired;
    RunOneMore(ops, op);
    RetiredIsWitnessed(ops + [op], node);
  }

  lemma OwnersAreNodes(s: State, g: Graph)
    requires Inv(s, g)
    ensures |g.owner| == |s.nodes| == |g.preds| && g.recorder.Keys == s.records.Keys
    ensures forall token :: token in g.recorder ==> g.recorder[token] < |s.nodes|
  {
    InvParts(s, g);
    hide Covers, Accounted, StreamsCovered, Generations, Ordered, NodesCovered;
  }

  lemma SyncWitnesses(s: State, g: Graph, key: Key, a: nat)
    requires Inv(s, g) && FaultOf(s, SynchronizeStream(key, Success)).None?
    requires a < |s.nodes| && a < |g.owner| && g.owner[a] == key
    ensures var (t, r) := Step(s, SynchronizeStream(key, Success));
            var h := Track(g, SynchronizeStream(key, Success), r);
            t.nodes == s.nodes && !t.poisoned && ReachesAny(h.preds, a, h.host)
  {
    hide Inv, NodesCovered, RecordsCovered, StreamsCovered, Covers, Generations, Ordered, Bounded;
    InvParts(s, g);
    assert ReachesAny(g.preds, a, g.frontier[key]);
    assert ReachesAny(g.preds, a, g.host + g.frontier[key]);
  }

  /** Success on a current event record retires everything that precedes the node that
      made the record. */
  lemma EventSuccessRetires(ops: seq<Op>, token: Token, node: nat)
    requires FaultOf(Run(ops).0, Query(token, Success)).None? && KnownNode(Run(ops).0, node)
    ensures var recorder := RecorderOf(Run(ops).1, token);
            && recorder.Some? && KnownNode(Run(ops).0, recorder.value)
            && |Run(ops).1.preds| == |Run(ops).0.nodes|
            && (Reaches(Run(ops).1.preds, node - 1, recorder.value - 1) ==>
                  Retired(Run(ops + [Query(token, Success)]).0, node) == Some(true))
  {
    hide Run, Inv, FaultOf, Reaches, ReachesAny, Retired, Step, Track;
    var op := Query(token, Success);
    var (s, g) := Run(ops);
    RunKeepsInv(ops);
    OwnersAreNodes(s, g);
    QueryWitnesses(s, g, token);
    if Reaches(g.preds, node - 1, g.recorder[token]) {
      AlsoReaches(g.preds, node - 1, g.host, g.recorder[token]);
      RunOneMore(ops, op);
      RetiredIsWitnessed(ops + [op], node);
    }
  }

  lemma AlsoReaches(preds: seq<set<nat>>, a: nat, targets: set<nat>, p: nat)
    requires Reaches(preds, a, p)
    ensures ReachesAny(preds, a, targets + {p})
  {
  }

  lemma QueryWitnesses(s: State, g: Graph, token: Token)
    requires FaultOf(s, Query(token, Success)).None? && g.recorder.Keys == s.records.Keys
    ensures token in g.recorder
    ensures var (t, r) := Step(s, Query(token, Success));
            && t.nodes == s.nodes && !t.poisoned
            && Track(g, Query(token, Success), r) == g.(host := g.host + {g.recorder[token]})
  {
    hide Join;
  }

  lemma RetiredStaysReached(ops: seq<Op>, more: seq<Op>, node: nat)
    requires Retired(Run(ops).0, node) == Some(true)
    ensures ReachesAny(Run(ops + more).1.preds, node - 1, Run(ops + more).1.host)
    ensures KnownNode(Run(ops + more).0, node)
  {
    hide Run, Inv;
    var (s, g) := Run(ops);
    RunContinues(ops, more);
    RetiredIsWitnessed(ops, node);
    RunKeepsInv(ops);
    RetiredStays(s, g, Run(ops + more).1, node - 1);
  }

  /** The accepted submission `op` on `stream` adds a node that follows the frontier. */
  lemma SubmissionAdds(s: State, g: Graph, op: Op, stream: Key)
    requires Inv(s, g) && FaultOf(s, op).None?
    requires op == Submit(stream) || (op.Record? && op.stream == stream) || (op.Wait? && op.stream == stream)
    ensures var h := Track(g, op, Answer(s, op));
            && |h.preds| == |g.preds| + 1 == |Step(s, op).0.nodes| && g.preds <= h.preds
            && stream in g.frontier && g.frontier[stream] <= h.preds[|g.preds|]
  {
    hide Inv;
    SameKeys(s, g);
    AcceptedFacts(s, op);
    hide FaultOf;
  }

  lemma ReachesNewNode(preds: seq<set<nat>>, grown: seq<set<nat>>, a: nat, targets: set<nat>)
    requires |grown| == |preds| + 1 && preds <= grown && targets <= grown[|preds|]
    requires ReachesAny(preds, a, targets) && forall p :: p in targets ==> p < |preds|
    ensures Reaches(grown, a, |preds|)
  {
    var p :| p in targets && Reaches(preds, a, p);
    ReachesStable(preds, grown[|preds|..], a, p);
    assert preds + grown[|preds|..] == grown;
  }

  lemma InheritedPrecedesNew(s: State, g: Graph, t: State, h: Graph, op: Op, stream: Key, a: nat)
    requires Inv(s, g) && Inv(t, h) && ReachesAny(g.preds, a, g.host)
    requires FaultOf(s, InheritHostRetirements(stream)).None? && FaultOf(t, op).None?
    requires op == Submit(stream) || (op.Record? && op.stream == stream) || (op.Wait? && op.stream == stream)
    requires h == Track(g, InheritHostRetirements(stream), Done)
    ensures var i := Track(h, op, Answer(t, op));
            |i.preds| == |Step(t, op).0.nodes| > 0 && Reaches(i.preds, a, |i.preds| - 1)
  {
    hide Inv, FaultOf;
    SameKeys(s, g);
    HostClock(s, g);
    AcceptedFacts(s, InheritHostRetirements(stream));
    SubmissionAdds(t, h, op, stream);
    ReachesNewNode(g.preds, Track(h, op, Answer(t, op)).preds, a, g.host);
  }

  lemma RunTwoMore(ops: seq<Op>, first: Op, second: Op)
    ensures var (s, g) := Run(ops);
            var t, h := Step(s, first).0, Track(g, first, Step(s, first).1);
            && Run(ops + [first]) == (t, h)
            && Run(ops + [first, second]) == (Step(t, second).0, Track(h, second, Step(t, second).1))
  {
    hide Step, Track;
    RunOneMore(ops, first);
    RunOneMore(ops + [first], second);
    assert ops + [first] + [second] == ops + [first, second];
  }

  lemma AcceptedStep(s: State, op: Op)
    requires FaultOf(s, op).None?
    ensures Step(s, op).1 == Answer(s, op) && (op.InheritHostRetirements? ==> Step(s, op).1 == Done)
  {
    hide FaultOf, Apply;
  }

  lemma WitnessedPrecedesNext(ops: seq<Op>, node: nat, stream: Key, op: Op)
    requires node > 0 && ReachesAny(Run(ops).1.preds, node - 1, Run(ops).1.host)
    requires op == Submit(stream) || (op.Record? && op.stream == stream) || (op.Wait? && op.stream == stream)
    requires FaultOf(Run(ops).0, InheritHostRetirements(stream)).None?
    requires FaultOf(Run(ops + [InheritHostRetirements(stream)]).0, op).None?
    ensures var u := Run(ops + [InheritHostRetirements(stream), op]).0;
            Precedes(u, node, |u.nodes|) == Some(true)
  {
    hide Precedes, FaultOf, Run, Inv, Track, ReachesAny, Step, Reaches;
    var inherit := InheritHostRetirements(stream);
    var (s, g) := Run(ops);
    var (t, h) := Run(ops + [inherit]);
    RunTwoMore(ops, inherit, op);
    AcceptedStep(s, inherit);
    AcceptedStep(t, op);
    RunKeepsInv(ops);
    RunKeepsInv(ops + [inherit]);
    InheritedPrecedesNew(s, g, t, h, op, stream, node - 1);
    LastPreceded(ops + [inherit, op], node);
  }

  /** A node retired now precedes whatever is submitted, at any later time and on any
      stream, by a call that first inherits the host's retirements. */
  lemma RetiredPrecedesLater(ops: seq<Op>, more: seq<Op>, node: nat, stream: Key, op: Op)
    requires Retired(Run(ops).0, node) == Some(true)
    requires op == Submit(stream) || (op.Record? && op.stream == stream) || (op.Wait? && op.stream == stream)
    requires FaultOf(Run(ops + more).0, InheritHostRetirements(stream)).None?
    requires FaultOf(Run(ops + more + [InheritHostRetirements(stream)]).0, op).None?
    ensures var u := Run(ops + more + [InheritHostRetirements(stream), op]).0;
            Precedes(u, node, |u.nodes|) == Some(true)
  {
    hide Precedes, FaultOf, Run, ReachesAny;
    RetiredStaysReached(ops, more, node);
    WitnessedPrecedesNext(ops + more, node, stream, op);
  }

  lemma LastPreceded(ops: seq<Op>, node: nat)
    requires node > 0 && |Run(ops).1.preds| == |Run(ops).0.nodes| > 0
    requires Reaches(Run(ops).1.preds, node - 1, |Run(ops).1.preds| - 1)
    ensures Precedes(Run(ops).0, node, |Run(ops).0.nodes|) == Some(true)
  {
    hide Run, Precedes;
    ReachesOrder(Run(ops).1.preds, node - 1, |Run(ops).1.preds| - 1);
    PrecedesIsReachability(ops, node, |Run(ops).0.nodes|);
  }
}
