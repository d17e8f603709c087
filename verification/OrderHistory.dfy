/** Which calls the device order accepts, said in terms of the calls made before and the
    answers they got. */
module OrderHistory {
  import opened Options
  import opened OrderModel
  import opened OrderProofs

  /** What a caller can write down from the answers alone: the streams and events that live,
      how often each identity was created, how many records each event has made and which is
      its last, the stream of every node, the node of every record. */
  datatype Ledger = Ledger(
    streams: set<Key>,
    events: set<Key>,
    streamIds: map<nat, nat>,
    eventIds: map<nat, nat>,
    made: map<Key, nat>,
    current: map<Key, Token>,
    owners: seq<Key>,
    recorders: map<Token, nat>,
    sealed: bool,
    poisoned: bool)

  const EMPTY_LEDGER := Ledger({}, {}, map[], map[], map[], map[], [], map[], false, false)

  /** The calls that a sealed model answers by poisoning itself. */
  predicate Extends(op: Op) {
    op.CreateStream? || op.CreateEvent? || op.Submit? || op.Record? || op.Wait?
    || op.InheritHostRetirements? || op.SealSubmissions?
  }

  function Tell(l: Ledger, op: Op, answer: Outcome): Ledger {
    if answer.Rejected? then
      l.(poisoned := l.poisoned || (l.sealed && Extends(op))
                     || answer.fault in {EventQueryFailure, StreamSyncFailure, ContextSyncFailure})
    else
      match op
      case CreateStream(key) =>
        l.(streams := l.streams + {key}, streamIds := l.streamIds[key.0 := Get(l.streamIds, key.0) + 1])
      case CreateEvent(key) =>
        l.(events := l.events + {key}, eventIds := l.eventIds[key.0 := Get(l.eventIds, key.0) + 1])
      case Submit(stream) => l.(owners := l.owners + [stream])
      case Wait(stream, _) => l.(owners := l.owners + [stream])
      case Record(event, stream) =>
        if !answer.NewRecord? then l
        else l.(owners := l.owners + [stream], made := l.made[event := Get(l.made, event) + 1],
                current := l.current[event := answer.token],
                recorders := l.recorders[answer.token := |l.owners| + 1])
      case DestroyEvent(key) => l.(events := l.events - {key}, current := l.current - {key})
      case DestroyStream(key) => l.(streams := l.streams - {key})
      case SealSubmissions => l.(sealed := true)
      case _ => l
  }

  /** The answer that a call gets after the given history. */
  function AnswerTo(ops: seq<Op>, op: Op): Outcome {
    Step(Run(ops).0, op).1
  }

  function Told(ops: seq<Op>): Ledger {
    if ops == [] then EMPTY_LEDGER
    else
      var init, op := ops[..|ops| - 1], ops[|ops| - 1];
      Tell(Told(init), op, AnswerTo(init, op))
  }

  function Entries(nodes: seq<Clock>): nat {
    if nodes == [] then 0 else Entries(nodes[..|nodes| - 1]) + |nodes[|nodes| - 1]|
  }

  // ---- the ledger agrees with the state ----

  /** The events of the state, from what they have recorded. */
  ghost predicate SameEvents(events: map<Key, nat>, ids: map<nat, nat>, live: set<Key>, made: map<Key, nat>,
                             current: map<Key, Token>)
  {
    && events.Keys == live
    && (forall e :: e in events ==> e.1 <= Get(ids, e.0) && events[e] == Get(made, e))
    && (forall e :: e in made ==> e.1 <= Get(ids, e.0))
    && (forall e :: e in current <==> e in events && events[e] > 0)
    && (forall e :: e in current ==> current[e] == Token(e, events[e]))
  }

  ghost predicate SameRecords(tokens: set<Token>, recorder: map<Token, nat>, recorders: map<Token, nat>,
                              current: map<Key, Token>)
  {
    && tokens == recorders.Keys == recorder.Keys
    && (forall t :: t in recorders ==> recorders[t] == recorder[t] + 1)
    && (forall e :: e in current ==> current[e] in recorders)
  }

  ghost predicate SameNodes(nodes: seq<Clock>, preds: seq<set<nat>>, owner: seq<Key>, owners: seq<Key>, entries: nat) {
    owner == owners && |nodes| == |preds| == |owners| && entries == Entries(nodes)
  }

  ghost predicate Matches(s: State, g: Graph, l: Ledger) {
    && s.streams.Keys == l.streams && s.streamGenerations == l.streamIds && s.eventGenerations == l.eventIds
    && SameEvents(s.events, s.eventGenerations, l.events, l.made, l.current)
    && SameRecords(s.records.Keys, g.recorder, l.recorders, l.current)
    && SameNodes(s.nodes, g.preds, g.owner, l.owners, s.clockEntries)
    && s.sealed == l.sealed && s.poisoned == l.poisoned
  }

  lemma EventCreated(events: map<Key, nat>, ids: map<nat, nat>, live: set<Key>, made: map<Key, nat>,
                     current: map<Key, Token>, key: Key)
    requires SameEvents(events, ids, live, made, current) && key.1 == Get(ids, key.0) + 1
    ensures SameEvents(events[key := 0], ids[key.0 := key.1], live + {key}, made, current)
  {
    assert key !in made && key !in events;
  }

  lemma EventRecorded(events: map<Key, nat>, ids: map<nat, nat>, live: set<Key>, made: map<Key, nat>,
                      current: map<Key, Token>, key: Key)
    requires SameEvents(events, ids, live, made, current) && key in events
    ensures SameEvents(events[key := events[key] + 1], ids, live, made[key := Get(made, key) + 1],
                       current[key := Token(key, events[key] + 1)])
  {
  }

  lemma EventDestroyed(events: map<Key, nat>, ids: map<nat, nat>, live: set<Key>, made: map<Key, nat>,
                       current: map<Key, Token>, key: Key)
    requires SameEvents(events, ids, live, made, current)
    ensures SameEvents(events - {key}, ids, live - {key}, made, current - {key})
  {
  }

  lemma RecordAdded(tokens: set<Token>, recorder: map<Token, nat>, recorders: map<Token, nat>,
                    current: map<Key, Token>, event: Key, token: Token, node: nat)
    requires SameRecords(tokens, recorder, recorders, current)
    ensures SameRecords(tokens + {token}, recorder[token := node], recorders[token := node + 1],
                        current[event := token])
  {
  }

  lemma CurrentShrinks(tokens: set<Token>, recorder: map<Token, nat>, recorders: map<Token, nat>,
                       current: map<Key, Token>, event: Key)
    requires SameRecords(tokens, recorder, recorders, current)
    ensures SameRecords(tokens, recorder, recorders, current - {event})
  {
  }

  lemma NodeAdded(nodes: seq<Clock>, preds: seq<set<nat>>, owner: seq<Key>, owners: seq<Key>, entries: nat,
                  clock: Clock, edges: set<nat>, stream: Key)
    requires SameNodes(nodes, preds, owner, owners, entries)
    ensures SameNodes(nodes + [clock], preds + [edges], owner + [stream], owners + [stream], entries + |clock|)
  {
    assert (nodes + [clock])[..|nodes|] == nodes;
  }

  lemma SubmitsOne(s: State, stream: Key, clock: Clock)
    ensures var t := AfterSubmit(s, stream, clock);
            t == s.(streams := s.streams[stream := Tick(clock, stream)], nodes := s.nodes + [Tick(clock, stream)],
                    clockEntries := s.clockEntries + |Tick(clock, stream)|)
  {
    TickSize(clock, stream);
    hide Tick, SubmitCost;
  }

  lemma TickSize(clock: Clock, stream: Key)
    ensures |Tick(clock, stream)| == SubmitCost(clock, stream)
  {
    assert Tick(clock, stream).Keys == clock.Keys + {stream};
    assert |Tick(clock, stream)| == |Tick(clock, stream).Keys| && |clock| == |clock.Keys|;
  }

  /** Accepted calls, and what they change in state, graph and answer. */
  lemma AcceptedCall(s: State, g: Graph, op: Op)
    requires Inv(s, g) && FaultOf(s, op).None?
    ensures Mentions(g, op) && Step(s, op) == (Apply(s, op), Answer(s, op))
  {
    hide Inv;
    AcceptedFacts(s, op);
    SameKeys(s, g);
    hide FaultOf, Apply, Answer;
  }

  lemma RefusedMatches(s: State, g: Graph, l: Ledger, op: Op)
    requires Matches(s, g, l) && FaultOf(s, op).Some?
    ensures var (t, r) := Step(s, op); Matches(t, Track(g, op, r), Tell(l, op, r))
  {
    hide SameEvents, SameRecords, SameNodes, Step, FaultOf;
    RefusalPoisons(s, op);
  }

  lemma RefusalPoisons(s: State, op: Op)
    requires FaultOf(s, op).Some?
    ensures var (t, r) := Step(s, op);
            && r == Rejected(FaultOf(s, op).value)
            && t == s.(poisoned := s.poisoned || (s.sealed && Extends(op))
                         || FaultOf(s, op).value in {EventQueryFailure, StreamSyncFailure, ContextSyncFailure})
  {
    hide NewKeyFault, SubmitFault, RecordFault, Within, WaitCost, Size;
  }

  lemma NextGeneration(s: State, op: Op)
    requires FaultOf(s, op).None? && (op.CreateStream? || op.CreateEvent?)
    ensures op.key.1 == Get(if op.CreateStream? then s.streamGenerations else s.eventGenerations, op.key.0) + 1
  {
    hide AdmitFault, ValidKey;
  }

  lemma CreateMatches(s: State, g: Graph, l: Ledger, op: Op)
    requires Matches(s, g, l) && FaultOf(s, op).None? && (op.CreateStream? || op.CreateEvent?)
    ensures Matches(Apply(s, op), Track(g, op, Done), Tell(l, op, Done))
  {
    hide SameEvents, SameRecords, SameNodes, FaultOf, Get;
    NextGeneration(s, op);
    if op.CreateStream? {
      assert s.streams[op.key := map[]].Keys == s.streams.Keys + {op.key};
    } else {
      EventCreated(s.events, s.eventGenerations, l.events, l.made, l.current, op.key);
    }
  }

  lemma SubmitMatches(s: State, g: Graph, l: Ledger, op: Op)
    requires Matches(s, g, l) && FaultOf(s, op).None? && (op.Submit? || op.Wait?) && Mentions(g, op)
    requires op.stream in s.streams && (op.Wait? ==> op.token in s.records)
    ensures Matches(Apply(s, op), Track(g, op, Answer(s, op)), Tell(l, op, Answer(s, op)))
  {
    hide SameEvents, SameRecords, SameNodes, FaultOf, AfterSubmit, Join, Tick;
    var clock := if op.Wait? then Join(s.streams[op.stream], s.records[op.token]) else s.streams[op.stream];
    var edges := if op.Wait? then g.frontier[op.stream] + {g.recorder[op.token]} else g.frontier[op.stream];
    SubmitsOne(s, op.stream, clock);
    NodeAdded(s.nodes, g.preds, g.owner, l.owners, s.clockEntries, Tick(clock, op.stream), edges, op.stream);
    assert s.streams[op.stream := Tick(clock, op.stream)].Keys == s.streams.Keys;
  }

  lemma RecordMatches(s: State, g: Graph, l: Ledger, event: Key, stream: Key)
    requires Matches(s, g, l) && FaultOf(s, Record(event, stream)).None? && Mentions(g, Record(event, stream))
    requires event in s.events && stream in s.streams
    ensures var op := Record(event, stream);
            Matches(Apply(s, op), Track(g, op, Answer(s, op)), Tell(l, op, Answer(s, op)))
  {
    hide SameEvents, SameRecords, SameNodes, FaultOf, AfterSubmit, Tick, Get;
    var clock, token := s.streams[stream], Token(event, s.events[event] + 1);
    SubmitsOne(s, stream, clock);
    NodeAdded(s.nodes, g.preds, g.owner, l.owners, s.clockEntries, Tick(clock, stream), g.frontier[stream], stream);
    EventRecorded(s.events, s.eventGenerations, l.events, l.made, l.current, event);
    OneOwnerEach(s, g, l);
    RecordAdded(s.records.Keys, g.recorder, l.recorders, l.current, event, token, |g.preds|);
    assert s.streams[stream := Tick(clock, stream)].Keys == s.streams.Keys;
    assert s.records[token := Tick(clock, stream)].Keys == s.records.Keys + {token};
  }

  lemma OneOwnerEach(s: State, g: Graph, l: Ledger)
    requires Matches(s, g, l)
    ensures |l.owners| == |g.preds| == |s.nodes|
  {
    hide SameEvents, SameRecords, Entries;
  }

  lemma DestroyMatches(s: State, g: Graph, l: Ledger, op: Op)
    requires Matches(s, g, l) && FaultOf(s, op).None? && (op.DestroyEvent? || op.DestroyStream?)
    ensures Matches(Apply(s, op), Track(g, op, Done), Tell(l, op, Done))
  {
    hide SameEvents, SameRecords, SameNodes, FaultOf, Remove;
    if op.DestroyEvent? {
      EventDestroyed(s.events, s.eventGenerations, l.events, l.made, l.current, op.key);
      CurrentShrinks(s.records.Keys, g.recorder, l.recorders, l.current, op.key);
    }
  }

  lemma OtherMatches(s: State, g: Graph, l: Ledger, op: Op)
    requires Matches(s, g, l) && FaultOf(s, op).None? && Mentions(g, op)
    requires op.Query? || op.SynchronizeStream? || op.InheritHostRetirements? || op.SynchronizeContext?
             || op.SealSubmissions?
    requires op.InheritHostRetirements? ==> op.key in s.streams
    ensures Matches(Apply(s, op), Track(g, op, Done), Tell(l, op, Done))
  {
    hide SameEvents, SameRecords, SameNodes, FaultOf, Join, JoinAll;
    if op.InheritHostRetirements? {
      assert s.streams[op.key := Join(s.streams[op.key], s.completed)].Keys == s.streams.Keys;
    }
  }

  lemma StepMatches(s: State, g: Graph, l: Ledger, op: Op)
    requires Inv(s, g) && Matches(s, g, l)
    ensures var (t, r) := Step(s, op); Matches(t, Track(g, op, r), Tell(l, op, r))
  {
    hide Inv, Matches, FaultOf, Apply, Track, Tell, Step;
    if FaultOf(s, op).Some? {
      RefusedMatches(s, g, l, op);
    } else {
      AcceptedCall(s, g, op);
      AcceptedFacts(s, op);
      match op
      case CreateStream(_) => CreateMatches(s, g, l, op);
      case CreateEvent(_) => CreateMatches(s, g, l, op);
      case Submit(_) => SubmitMatches(s, g, l, op);
      case Wait(_, _) => SubmitMatches(s, g, l, op);
      case Record(event, stream) => RecordMatches(s, g, l, event, stream);
      case DestroyEvent(_) => DestroyMatches(s, g, l, op);
      case DestroyStream(_) => DestroyMatches(s, g, l, op);
      case Query(_, _) => OtherMatches(s, g, l, op);
      case SynchronizeStream(_, _) => OtherMatches(s, g, l, op);
      case InheritHostRetirements(_) => OtherMatches(s, g, l, op);
      case SynchronizeContext(_) => OtherMatches(s, g, l, op);
      case SealSubmissions => OtherMatches(s, g, l, op);
    }
  }

  /** After any calls, the state holds exactly what the answers told: the owners of the nodes,
      the recording nodes and the current records among it. */
  lemma {:induction false} LedgerAgrees(ops: seq<Op>)
    ensures Matches(Run(ops).0, Run(ops).1, Told(ops))
  {
    if ops == [] {
    } else {
      hide Inv, Matches, Step, Track, Tell;
      var init, op := ops[..|ops| - 1], ops[|ops| - 1];
      LedgerAgrees(init);
      RunKeepsInv(init);
      StepMatches(Run(init).0, Run(init).1, Told(init), op);
    }
  }
}
