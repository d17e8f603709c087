/** What the rows of an accepted order trace ask of the device order, read off the rows alone:
    the calls made, and the stream of every node. */
module OrderScript {
  import opened Options
  import O = OrderModel
  import P = OrderProofs
  import H = OrderHistory
  import A = OrderAcceptance
  import opened OrderTrace
  import opened OrderTraceProofs

  /** The kind and open generation of each live stream and event, how many generations each identity has
      had, the calls made so far, the stream of each node, the last recording node of each
      event, and how many copies, sets and launches finished. */
  datatype Script = Script(streams: map<nat, (StreamKind, nat)>, streamIds: map<nat, nat>, events: map<nat, nat>,
                           eventIds: map<nat, nat>, ops: seq<O.Op>, owners: seq<O.Key>,
                           recorders: map<O.Key, nat>, submissions: nat, kernels: nat)

  const BLANK := Script(map[], map[], map[], map[], [], [], map[], 0, 0)

  function StreamOf(w: Script, call: Call): O.Key {
    (call.stream, if call.stream in w.streams then w.streams[call.stream].1 else 0)
  }

  function EventOf(w: Script, call: Call): O.Key {
    (call.event, O.Get(w.events, call.event))
  }

  /** The number of records of the event among the calls. */
  function Records(ops: seq<O.Op>, event: O.Key): nat {
    if ops == [] then 0
    else
      var last := ops[|ops| - 1];
      Records(ops[..|ops| - 1], event) + if last.Record? && last.event == event then 1 else 0
  }

  function Opens(w: Script, call: Call, kind: StreamKind): Script {
    var generation := O.Get(w.streamIds, call.stream) + 1;
    w.(streams := w.streams[call.stream := (kind, generation)], streamIds := w.streamIds[call.stream := generation],
       ops := w.ops + [O.CreateStream((call.stream, generation))])
  }

  /** A call on a stream opens it if it is a per-thread stream used for the first time. */
  function Uses(w: Script, call: Call): Script {
    if call.stream in w.streams then w else Opens(w, call, PerThread)
  }

  /** Every submission first inherits what the host has seen finish. */
  function Posts(w: Script, stream: O.Key, op: O.Op): Script {
    w.(ops := w.ops + [O.InheritHostRetirements(stream), op], owners := w.owners + [stream])
  }

  function Submission(w: Script, call: Call): Script {
    Posts(w, StreamOf(w, call), O.Submit(StreamOf(w, call)))
      .(submissions := w.submissions + 1, kernels := w.kernels + if call.symbol == LaunchKernel then 1 else 0)
  }

  function Recording(w: Script, call: Call): Script {
    Posts(w, StreamOf(w, call), O.Record(EventOf(w, call), StreamOf(w, call)))
      .(recorders := w.recorders[EventOf(w, call) := |w.owners| + 1])
  }

  function Waiting(w: Script, call: Call): Script {
    Posts(w, StreamOf(w, call),
         O.Wait(StreamOf(w, call), O.Token(EventOf(w, call), Records(w.ops, EventOf(w, call)))))
  }

  function Says(w: Script, op: O.Op): Script {
    w.(ops := w.ops + [op])
  }

  function Asks(w: Script, call: Call): Script {
    Says(w, O.Query(O.Token(EventOf(w, call), Records(w.ops, EventOf(w, call))),
                    if call.result == 0 then O.Success else O.NotReady))
  }

  /** What the finished call asks of the device order. */
  function Finish(w: Script, call: Call): Script {
    match call.symbol
    case LaunchKernel => Submission(Uses(w, call), call)
    case CopyHtoD => Submission(Uses(w, call), call)
    case CopyDtoH => Submission(Uses(w, call), call)
    case CopyDtoD => Submission(Uses(w, call), call)
    case Memset => Submission(Uses(w, call), call)
    case EventRecord => Recording(Uses(w, call), call)
    case StreamWaitEvent => Waiting(Uses(w, call), call)
    case StreamCreate => Opens(w, call, Explicit)
    case StreamDestroy =>
      var v := Uses(w, call);
      Says(v, O.DestroyStream(StreamOf(v, call))).(streams := v.streams - {call.stream})
    case StreamSynchronize =>
      var v := Uses(w, call);
      Says(v, O.SynchronizeStream(StreamOf(v, call), O.Success))
    case CtxSynchronize => Says(w, O.SynchronizeContext(O.Success))
    case CtxSynchronizeV2 => Says(w, O.SynchronizeContext(O.Success))
    case EventCreate =>
      var generation := O.Get(w.eventIds, call.event) + 1;
      Says(w, O.CreateEvent((call.event, generation)))
        .(events := w.events[call.event := generation], eventIds := w.eventIds[call.event := generation])
    case EventDestroy => Says(w, O.DestroyEvent(EventOf(w, call))).(events := w.events - {call.event})
    case EventQuery => Asks(w, call)
    case EventSynchronize => Asks(w, call)
    case _ => w
  }

  function Next(w: Script, row: Row): Script {
    match row
    case Exit(call) => Finish(w, call)
    case Seal(_) => Says(w, O.SealSubmissions)
    case _ => w
  }

  function ScriptOf(rows: seq<Row>): Script {
    if rows == [] then BLANK else Next(ScriptOf(rows[..|rows| - 1]), rows[|rows| - 1])
  }

  // ---- the trace follows its script ----

  /** The tables and the calls of the state are those of the script. */
  ghost predicate Follows(w: Script, s: State) {
    && s.ops == w.ops && s.streamGenerations == w.streamIds && s.events == w.events && s.eventGenerations == w.eventIds
    && s.streams == w.streams
    && s.submissions == w.submissions && s.kernels == w.kernels
  }

  lemma DoneExact(s: State, op: O.Op)
    ensures Do(s, op).Ok? ==> Do(s, op).value == s.(ops := s.ops + [op])
  {
    hide O.FaultOf, P.Run;
  }

  lemma OpensExact(w: Script, s: State, call: Call, kind: StreamKind)
    requires Follows(w, s)
    ensures NewStream(s, call.stream, kind).Ok? ==> Follows(Opens(w, call, kind), NewStream(s, call.stream, kind).value)
  {
    hide Do;
    DoneExact(s, O.CreateStream((call.stream, O.Get(s.streamGenerations, call.stream) + 1)));
  }

  lemma UsesExact(w: Script, s: State, call: Call)
    requires Follows(w, s)
    ensures Target(s, call).Ok? ==>
              Follows(Uses(w, call), Target(s, call).value) && call.stream in Uses(w, call).streams
  {
    hide NewStream;
    OpensExact(w, s, call, PerThread);
  }

  lemma SameStream(w: Script, s: State, call: Call)
    requires Follows(w, s)
    ensures StreamKey(s, call.stream) == StreamOf(w, call)
    ensures EventKey(s, call.event).Ok? ==> EventKey(s, call.event).value == EventOf(w, call)
  {
  }

  lemma InheritedExact(w: Script, s: State, call: Call)
    requires Follows(w, s) && Inherited(s, call).Ok?
    ensures var v, t := Uses(w, call), Inherited(s, call).value;
            Follows(Says(v, O.InheritHostRetirements(StreamOf(v, call))), t)
  {
    hide Do, Target, StreamKey;
    UsesExact(w, s, call);
    var t := Target(s, call);
    if t.Ok? {
      SameStream(Uses(w, call), t.value, call);
      DoneExact(t.value, O.InheritHostRetirements(StreamKey(t.value, call.stream)));
    }
  }

  lemma SubmittedExact(w: Script, s: State, call: Call)
    requires Follows(w, s) && Submitted(s, call).Ok?
    ensures Follows(Submission(Uses(w, call), call), Submitted(s, call).value)
  {
    hide Do, Inherited, StreamKey, Uses;
    InheritedExact(w, s, call);
    var v, t := Uses(w, call), Inherited(s, call).value;
    SameStream(Says(v, O.InheritHostRetirements(StreamOf(v, call))), t, call);
    DoneExact(t, O.Submit(StreamKey(t, call.stream)));
    assert v.ops + [O.InheritHostRetirements(StreamOf(v, call))] + [O.Submit(StreamOf(v, call))]
           == v.ops + [O.InheritHostRetirements(StreamOf(v, call)), O.Submit(StreamOf(v, call))];
  }

  // ---- records, counted among the accepted calls ----

  lemma AcceptedNow(ops: seq<O.Op>, op: O.Op)
    ensures O.FaultOf(P.Run(ops).0, op).None? <==> !H.AnswerTo(ops, op).Rejected?
  {
    hide P.Run, O.FaultOf, O.Apply;
    A.StepAnswers(P.Run(ops).0, op);
  }

  lemma {:induction false} RecordsCounted(ops: seq<O.Op>, event: O.Key)
    requires Accepted(ops)
    ensures Records(ops, event) == A.RecordsOf(ops, event)
  {
    if ops == [] {
    } else {
      hide P.Run, O.FaultOf, H.AnswerTo;
      var n := |ops| - 1;
      RecordsCounted(ops[..n], event);
      AcceptedNow(ops[..n], ops[n]);
    }
  }

  /** The token that the trace reads is the last record of the event. */
  lemma TokenExact(s: State, key: O.Key)
    requires Good(s) && CurrentToken(s, key).Ok?
    ensures CurrentToken(s, key).value == O.Token(key, Records(s.ops, key))
  {
    hide P.Run, Accepted, H.Told, A.RecordsOf, Records, EventsExist;
    H.LedgerAgrees(s.ops);
    A.MadeExact(s.ops, key);
    RecordsCounted(s.ops, key);
    EventCounted(P.Run(s.ops).0, P.Run(s.ops).1, H.Told(s.ops), key);
  }

  lemma EventCounted(s: O.State, g: P.Graph, l: H.Ledger, key: O.Key)
    requires H.Matches(s, g, l) && key in s.events
    ensures s.events[key] == O.Get(l.made, key)
  {
    hide H.SameNodes, H.SameRecords;
  }

  lemma OneMoreRecord(ops: seq<O.Op>, op: O.Op, event: O.Key)
    ensures Records(ops + [op], event) == Records(ops, event) + if op.Record? && op.event == event then 1 else 0
  {
    assert (ops + [op])[..|ops|] == ops;
  }

  // ---- call by call ----

  lemma TwoMore(w: Script, first: O.Op, second: O.Op)
    ensures w.ops + [first] + [second] == w.ops + [first, second]
  {
  }

  lemma RecordedExact(w: Script, s: State, call: Call)
    requires Follows(w, s) && Recorded(s, call).Ok?
    ensures Follows(Recording(Uses(w, call), call), Recorded(s, call).value)
  {
    hide Do, Inherited, StreamKey, Uses, EventKey;
    InheritedExact(w, s, call);
    var v, t := Uses(w, call), Inherited(s, call).value;
    var op := O.Record(EventOf(v, call), StreamOf(v, call));
    SameStream(Says(v, O.InheritHostRetirements(StreamOf(v, call))), t, call);
    DoneExact(t, op);
    TwoMore(v, O.InheritHostRetirements(StreamOf(v, call)), op);
  }

  lemma WaitedExact(w: Script, s: State, call: Call)
    requires Good(s) && Follows(w, s) && Waited(s, call).Ok?
    ensures Follows(Waiting(Uses(w, call), call), Waited(s, call).value)
  {
    hide Do, Target, StreamKey, Uses, EventKey, CurrentToken, Good, Records;
    UsesExact(w, s, call);
    TargetEvolves(s, call);
    var v, t := Uses(w, call), Target(s, call).value;
    SameStream(v, t, call);
    var inherit := O.InheritHostRetirements(StreamOf(v, call));
    DoEvolves(t, inherit);
    var u := Do(t, inherit).value;
    TokenExact(u, EventOf(v, call));
    OneMoreRecord(t.ops, inherit, EventOf(v, call));
    var op := O.Wait(StreamOf(v, call), O.Token(EventOf(v, call), Records(v.ops, EventOf(v, call))));
    DoneExact(u, op);
    TwoMore(v, inherit, op);
  }

  lemma QueriedExact(w: Script, s: State, call: Call)
    requires Good(s) && Follows(w, s) && Queried(s, call).Ok?
    ensures Follows(Asks(w, call), Queried(s, call).value)
  {
    hide Do, StreamKey, EventKey, CurrentToken, Good, Records, Follows;
    SameStream(w, s, call);
    TokenExact(s, EventOf(w, call));
    assert s.ops == w.ops by { SameOps(w, s); }
    SaidExact(w, s, O.Query(O.Token(EventOf(w, call), Records(w.ops, EventOf(w, call))),
                            if call.result == 0 then O.Success else O.NotReady));
  }

  lemma SameOps(w: Script, s: State)
    requires Follows(w, s)
    ensures s.ops == w.ops && s.submissions == w.submissions && s.kernels == w.kernels
  {
  }

  lemma StreamCallExact(w: Script, s: State, call: Call)
    requires Follows(w, s) && (call.symbol.StreamDestroy? || call.symbol.StreamSynchronize?)
    requires DeviceEffect(s, call).Ok?
    ensures Follows(Finish(w, call), DeviceEffect(s, call).value)
  {
    hide Do, Target, StreamKey, Uses;
    UsesExact(w, s, call);
    var v, t := Uses(w, call), Target(s, call).value;
    SameStream(v, t, call);
    DoneExact(t, if call.symbol.StreamDestroy? then O.DestroyStream(StreamOf(v, call))
                 else O.SynchronizeStream(StreamOf(v, call), O.Success));
  }

  lemma EventCallExact(w: Script, s: State, call: Call)
    requires Follows(w, s) && (call.symbol.EventCreate? || call.symbol.EventDestroy?)
    requires DeviceEffect(s, call).Ok?
    ensures Follows(Finish(w, call), DeviceEffect(s, call).value)
  {
    hide Do, EventKey;
    SameStream(w, s, call);
    DoneExact(s, if call.symbol.EventDestroy? then O.DestroyEvent(EventOf(w, call))
                 else O.CreateEvent((call.event, O.Get(s.eventGenerations, call.event) + 1)));
  }

  lemma DeviceExact(w: Script, s: State, call: Call)
    requires Good(s) && Follows(w, s) && DeviceEffect(s, call).Ok?
    ensures Follows(Finish(w, call), DeviceEffect(s, call).value)
  {
    hide Do, Submitted, Recorded, Waited, Queried, NewStream, DestroyedStream, SynchronizedStream, CreatedEvent,
         DestroyedEvent, Good, Follows, Opens, Uses, Submission, Recording, Waiting, Asks;
    match call.symbol
    case LaunchKernel => SubmittedExact(w, s, call);
    case CopyHtoD => SubmittedExact(w, s, call);
    case CopyDtoH => SubmittedExact(w, s, call);
    case CopyDtoD => SubmittedExact(w, s, call);
    case Memset => SubmittedExact(w, s, call);
    case EventRecord => RecordedExact(w, s, call);
    case StreamWaitEvent => WaitedExact(w, s, call);
    case StreamCreate => OpensExact(w, s, call, Explicit);
    case StreamDestroy => StreamCallExact(w, s, call);
    case StreamSynchronize => StreamCallExact(w, s, call);
    case CtxSynchronize => SaidExact(w, s, O.SynchronizeContext(O.Success));
    case CtxSynchronizeV2 => SaidExact(w, s, O.SynchronizeContext(O.Success));
    case EventCreate => EventCallExact(w, s, call);
    case EventDestroy => EventCallExact(w, s, call);
    case EventQuery => QueriedExact(w, s, call);
    case EventSynchronize => QueriedExact(w, s, call);
    case _ =>
  }

  lemma SaidExact(w: Script, s: State, op: O.Op)
    requires Follows(w, s) && Do(s, op).Ok?
    ensures Follows(Says(w, op), Do(s, op).value)
  {
    hide Do;
    DoneExact(s, op);
  }

  lemma EffectExact(w: Script, s: State, call: Call)
    requires Good(s) && Follows(w, s) && Effect(s, call).Ok?
    ensures Follows(Finish(w, call), Effect(s, call).value)
  {
    hide DeviceEffect, Good;
    if call.symbol != PrimaryCtxRetain && call.symbol != CtxSetCurrent {
      DeviceExact(w, s, call);
    }
  }

  lemma RowExact(w: Script, s: State, row: Row)
    requires Good(s) && Follows(w, s) && Step(s, row).Ok?
    ensures Follows(Next(w, row), Step(s, row).value)
  {
    hide Do, Good, Effect, Finish, AllRetired, NoExplicitStream, MutationPending;
    match row
    case Seal(_) => DoneExact(s, O.SealSubmissions);
    case Summary(_, _, _, _, _) =>
    case Enter(call) =>
    case Exit(call) =>
      AdmitSame(s, call);
      ExitExact(w, AdmitCall(s, call).value, call);
  }

  lemma ExitExact(w: Script, s: State, call: Call)
    requires Good(s) && Follows(w, s) && ExitCall(s, call).Ok?
    ensures Follows(Finish(w, call), ExitCall(s, call).value)
  {
    hide Good, Effect, Paired;
    var t := Pop(s, call).value;
    SameEvents(s, t);
    if !IsQuery(call.symbol) {
      EffectExact(w, t, call);
    }
  }

  /** An accepted trace makes exactly the order calls that its rows spell out, and its tables
      and counters are those the rows give. */
  lemma {:induction false} ScriptExact(rows: seq<Row>)
    requires Run(rows).Ok?
    ensures Follows(ScriptOf(rows), Run(rows).value)
  {
    if rows == [] {
    } else {
      hide Step, Good, Follows, Next, Spans;
      var n := |rows| - 1;
      ScriptExact(rows[..n]);
      TraceNests(rows[..n]);
      RowExact(ScriptOf(rows[..n]), Run(rows[..n]).value, rows[n]);
    }
  }

  // ---- the nodes, one for each submitting row ----

  /** The streams of the submissions among the calls. */
  function OwnersIn(ops: seq<O.Op>): seq<O.Key> {
    if ops == [] then []
    else
      var last := ops[|ops| - 1];
      OwnersIn(ops[..|ops| - 1]) + if Adds(last) then [last.stream] else []
  }

  /** The node of the last record of the event, or 0. */
  function LastNode(ops: seq<O.Op>, event: O.Key): nat {
    if ops == [] then 0
    else
      var last := ops[|ops| - 1];
      if last.Record? && last.event == event then |OwnersIn(ops)| else LastNode(ops[..|ops| - 1], event)
  }

  lemma TellsOwners(l: H.Ledger, op: O.Op, answer: O.Outcome)
    requires !answer.Rejected? && (op.Record? ==> answer.NewRecord?)
    ensures H.Tell(l, op, answer).owners == l.owners + if Adds(op) then [op.stream] else []
    ensures H.Tell(l, op, answer).recorders ==
            if op.Record? then l.recorders[answer.token := |l.owners| + 1] else l.recorders
  {
  }

  lemma TellAccepted(ops: seq<O.Op>)
    requires ops != [] && Accepted(ops)
    ensures var n, l := |ops| - 1, H.Told(ops[..|ops| - 1]);
            && Accepted(ops[..n])
            && H.Told(ops).owners == l.owners + (if Adds(ops[n]) then [ops[n].stream] else [])
            && H.Told(ops).recorders ==
               if ops[n].Record?
               then l.recorders[O.Token(ops[n].event, Records(ops[..n], ops[n].event) + 1) := |l.owners| + 1]
               else l.recorders
  {
    hide P.Run, H.Told, H.Tell, H.AnswerTo, O.FaultOf, A.Admissible, A.RecordsOf;
    var n := |ops| - 1;
    AcceptedNow(ops[..n], ops[n]);
    A.ToldLast(ops);
    A.AcceptedExactly(ops[..n], ops[n]);
    if ops[n].Record? {
      A.MadeExact(ops[..n], ops[n].event);
      RecordsCounted(ops[..n], ops[n].event);
    }
    TellsOwners(H.Told(ops[..n]), ops[n], H.AnswerTo(ops[..n], ops[n]));
  }

  ghost predicate Keeps(recorders: map<O.Token, nat>, event: O.Key, records: nat, node: nat) {
    records > 0 ==> O.Token(event, records) in recorders && recorders[O.Token(event, records)] == node
  }

  lemma KeepsOthers(recorders: map<O.Token, nat>, event: O.Key, records: nat, node: nat, token: O.Token, at: nat)
    requires Keeps(recorders, event, records, node)
    ensures token.event != event ==> Keeps(recorders[token := at], event, records, node)
    ensures token == O.Token(event, records + 1) ==> Keeps(recorders[token := at], event, records + 1, at)
  {
  }

  lemma NoNodes(event: O.Key)
    ensures H.Told([]).owners == OwnersIn([])
    ensures Keeps(H.Told([]).recorders, event, Records([], event), LastNode([], event))
  {
  }

  /** In an accepted history the owners and the recording nodes are those of the calls. */
  lemma {:induction false} NodesExact(ops: seq<O.Op>, event: O.Key)
    requires Accepted(ops)
    ensures H.Told(ops).owners == OwnersIn(ops)
    ensures Keeps(H.Told(ops).recorders, event, Records(ops, event), LastNode(ops, event))
  {
    hide H.Told, Accepted, Records, OwnersIn, LastNode, Keeps;
    if ops == [] {
      NoNodes(event);
    } else {
      var n := |ops| - 1;
      assert ops == ops[..n] + [ops[n]];
      TellAccepted(ops);
      NodesExact(ops[..n], event);
      OneMoreRecord(ops[..n], ops[n], event);
      OneMoreOwner(ops[..n], ops[n]);
      if ops[n].Record? {
        KeepsOthers(H.Told(ops[..n]).recorders, event, Records(ops[..n], event), LastNode(ops[..n], event),
                    O.Token(ops[n].event, Records(ops[..n], ops[n].event) + 1), |OwnersIn(ops[..n])| + 1);
      }
    }
  }

  predicate IsWork(symbol: Symbol) {
    symbol.LaunchKernel? || symbol.CopyHtoD? || symbol.CopyDtoH? || symbol.CopyDtoD? || symbol.Memset?
  }

  predicate WorkRow(row: Row) {
    row.Exit? && IsWork(row.call.symbol)
  }

  predicate LaunchRow(row: Row) {
    row.Exit? && row.call.symbol.LaunchKernel?
  }

  predicate SubmitsRow(row: Row) {
    WorkRow(row) || (row.Exit? && (row.call.symbol.EventRecord? || row.call.symbol.StreamWaitEvent?))
  }

  function RowsWhere(rows: seq<Row>, p: Row -> bool): nat {
    if rows == [] then 0
    else RowsWhere(rows[..|rows| - 1], p) + if p(rows[|rows| - 1]) then 1 else 0
  }

  /** The owners and recording nodes that a script tells are those of its calls. */
  ghost predicate Consistent(w: Script) {
    w.owners == OwnersIn(w.ops) && forall e :: O.Get(w.recorders, e) == LastNode(w.ops, e)
  }

  lemma OneMoreOwner(ops: seq<O.Op>, op: O.Op)
    ensures OwnersIn(ops + [op]) == OwnersIn(ops) + if Adds(op) then [op.stream] else []
    ensures forall e :: LastNode(ops + [op], e) ==
                        if op.Record? && op.event == e then |OwnersIn(ops)| + 1 else LastNode(ops, e)
  {
    assert (ops + [op])[..|ops|] == ops;
  }

  lemma SaysConsistent(w: Script, op: O.Op)
    requires Consistent(w) && !Adds(op)
    ensures Consistent(Says(w, op))
  {
    OneMoreOwner(w.ops, op);
  }

  lemma PostsConsistent(w: Script, stream: O.Key, op: O.Op)
    requires Consistent(w) && Adds(op) && op.stream == stream
    ensures op.Record? ==>
              Consistent(Posts(w, stream, op).(recorders := w.recorders[op.event := |w.owners| + 1]))
    ensures !op.Record? ==> Consistent(Posts(w, stream, op))
  {
    var inherit := O.InheritHostRetirements(stream);
    OneMoreOwner(w.ops, inherit);
    OneMoreOwner(w.ops + [inherit], op);
    TwoMore(w, inherit, op);
  }

  lemma UsesConsistent(w: Script, call: Call)
    requires Consistent(w)
    ensures Consistent(Uses(w, call)) && Uses(w, call).owners == w.owners
    ensures Consistent(Opens(w, call, Explicit)) && Opens(w, call, Explicit).owners == w.owners
  {
    var op := O.CreateStream((call.stream, O.Get(w.streamIds, call.stream) + 1));
    SaysConsistent(w, op);
  }

  /** The stream that a submitting row posts to. */
  function TargetOf(w: Script, row: Row): O.Key
    requires SubmitsRow(row)
  {
    StreamOf(Uses(w, row.call), row.call)
  }

  lemma NextConsistent(w: Script, row: Row)
    requires Consistent(w)
    ensures Consistent(Next(w, row))
    ensures Next(w, row).owners == w.owners + if SubmitsRow(row) then [TargetOf(w, row)] else []
  {
    hide Consistent, Opens, Uses;
    if row.Seal? {
      SaysConsistent(w, O.SealSubmissions);
      SameNodes(Says(w, O.SealSubmissions), Next(w, row));
    } else if row.Exit? {
      FinishConsistent(w, row.call);
    }
  }

  lemma SameNodes(w: Script, v: Script)
    requires Consistent(w) && v.ops == w.ops && v.owners == w.owners && v.recorders == w.recorders
    ensures Consistent(v)
  {
  }

  lemma FinishConsistent(w: Script, call: Call)
    requires Consistent(w)
    ensures Consistent(Finish(w, call))
    ensures Finish(w, call).owners == w.owners + if SubmitsRow(Exit(call)) then [TargetOf(w, Exit(call))] else []
  {
    hide Consistent, Opens, Uses, Submission, Recording, Waiting, Asks;
    UsesConsistent(w, call);
    if SubmitsRow(Exit(call)) {
      SubmissionConsistent(Uses(w, call), call);
      MarksConsistent(Uses(w, call), call);
    } else if call.symbol.StreamDestroy? || call.symbol.StreamSynchronize? {
      StreamConsistent(w, call);
    } else if call.symbol.EventCreate? || call.symbol.EventDestroy? {
      EventConsistent(w, call);
    } else {
      OtherConsistent(w, call);
    }
  }

  lemma MarksConsistent(w: Script, call: Call)
    requires Consistent(w)
    ensures Consistent(Recording(w, call)) && Recording(w, call).owners == w.owners + [StreamOf(w, call)]
    ensures Consistent(Waiting(w, call)) && Waiting(w, call).owners == w.owners + [StreamOf(w, call)]
  {
    hide Consistent;
    var stream, event := StreamOf(w, call), EventOf(w, call);
    PostsConsistent(w, stream, O.Record(event, stream));
    PostsConsistent(w, stream, O.Wait(stream, O.Token(event, Records(w.ops, event))));
  }

  lemma StreamConsistent(w: Script, call: Call)
    requires Consistent(w) && (call.symbol.StreamDestroy? || call.symbol.StreamSynchronize?)
    ensures Consistent(Finish(w, call)) && Finish(w, call).owners == w.owners
  {
    hide Consistent, Opens, Uses;
    UsesConsistent(w, call);
    var v := Uses(w, call);
    var stream := StreamOf(v, call);
    SaysConsistent(v, O.SynchronizeStream(stream, O.Success));
    SaysConsistent(v, O.DestroyStream(stream));
    var u := Says(v, O.DestroyStream(stream));
    SameNodes(u, u.(streams := v.streams - {call.stream}));
  }

  lemma SubmissionConsistent(w: Script, call: Call)
    requires Consistent(w)
    ensures Consistent(Submission(w, call)) && Submission(w, call).owners == w.owners + [StreamOf(w, call)]
  {
    hide Consistent;
    var stream := StreamOf(w, call);
    PostsConsistent(w, stream, O.Submit(stream));
    SameNodes(Posts(w, stream, O.Submit(stream)), Submission(w, call));
  }

  lemma EventConsistent(w: Script, call: Call)
    requires Consistent(w) && (call.symbol.EventCreate? || call.symbol.EventDestroy?)
    ensures Consistent(Finish(w, call)) && Finish(w, call).owners == w.owners
  {
    hide Consistent;
    var op := if call.symbol.EventDestroy? then O.DestroyEvent(EventOf(w, call))
              else O.CreateEvent((call.event, O.Get(w.eventIds, call.event) + 1));
    SaysConsistent(w, op);
    SameNodes(Says(w, op), Finish(w, call));
  }

  lemma OtherConsistent(w: Script, call: Call)
    requires Consistent(w)
    requires call.symbol in {StreamCreate, CtxSynchronize, CtxSynchronizeV2, EventQuery, EventSynchronize}
             || IsQuery(call.symbol) || call.symbol in {PrimaryCtxRetain, CtxSetCurrent, Unsupported}
    ensures Consistent(Finish(w, call)) && Finish(w, call).owners == w.owners
  {
    hide Consistent, Opens, Records;
    UsesConsistent(w, call);
    SaysConsistent(w, O.SynchronizeContext(O.Success));
    SaysConsistent(w, O.Query(O.Token(EventOf(w, call), Records(w.ops, EventOf(w, call))),
                              if call.result == 0 then O.Success else O.NotReady));
  }

  lemma {:induction false} ScriptConsistent(rows: seq<Row>)
    ensures Consistent(ScriptOf(rows))
    ensures |ScriptOf(rows).owners| == RowsWhere(rows, SubmitsRow)
    ensures ScriptOf(rows).submissions == RowsWhere(rows, WorkRow)
    ensures ScriptOf(rows).kernels == RowsWhere(rows, LaunchRow)
  {
    hide Next, Consistent, SubmitsRow, WorkRow, LaunchRow;
    if rows == [] {
      BlankConsistent();
    } else {
      var n := |rows| - 1;
      ScriptConsistent(rows[..n]);
      NextConsistent(ScriptOf(rows[..n]), rows[n]);
      NextCounts(ScriptOf(rows[..n]), rows[n]);
    }
  }

  lemma BlankConsistent()
    ensures Consistent(BLANK)
  {
  }

  lemma NextCounts(w: Script, row: Row)
    ensures Next(w, row).submissions == w.submissions + if WorkRow(row) then 1 else 0
    ensures Next(w, row).kernels == w.kernels + if LaunchRow(row) then 1 else 0
  {
    hide Finish;
    if row.Exit? { FinishCounts(w, row.call); }
  }

  lemma FinishCounts(w: Script, call: Call)
    ensures Finish(w, call).submissions == w.submissions + if IsWork(call.symbol) then 1 else 0
    ensures Finish(w, call).kernels == w.kernels + if call.symbol.LaunchKernel? then 1 else 0
  {
    if IsWork(call.symbol) {
      WorkCounts(w, call);
    } else if call.symbol.StreamDestroy? || call.symbol.StreamSynchronize? || call.symbol.StreamCreate? {
      StreamCounts(w, call);
    } else {
      OtherCounts(w, call);
    }
    hide Finish;
  }

  lemma WorkCounts(w: Script, call: Call)
    requires IsWork(call.symbol)
    ensures Finish(w, call).submissions == w.submissions + 1
    ensures Finish(w, call).kernels == w.kernels + if call.symbol.LaunchKernel? then 1 else 0
  {
    hide Uses, Opens, Submission, Recording, Waiting, Asks;
    UsesCounts(w, call);
    PostsCounts(Uses(w, call), call);
  }

  lemma StreamCounts(w: Script, call: Call)
    requires call.symbol.StreamDestroy? || call.symbol.StreamSynchronize? || call.symbol.StreamCreate?
    ensures Finish(w, call).submissions == w.submissions && Finish(w, call).kernels == w.kernels
  {
    hide Uses, Opens, Submission, Recording, Waiting, Asks;
    UsesCounts(w, call);
  }

  lemma OtherCounts(w: Script, call: Call)
    requires !IsWork(call.symbol)
    requires !call.symbol.StreamDestroy? && !call.symbol.StreamSynchronize? && !call.symbol.StreamCreate?
    ensures Finish(w, call).submissions == w.submissions && Finish(w, call).kernels == w.kernels
  {
    hide Uses, Opens, Submission, Recording, Waiting, Asks;
    UsesCounts(w, call);
    PostsCounts(Uses(w, call), call);
    AsksCounts(w, call);
  }

  lemma UsesCounts(w: Script, call: Call)
    ensures Uses(w, call).submissions == Opens(w, call, Explicit).submissions == w.submissions
    ensures Uses(w, call).kernels == Opens(w, call, Explicit).kernels == w.kernels
  {
  }

  lemma AsksCounts(w: Script, call: Call)
    ensures Asks(w, call).submissions == w.submissions && Asks(w, call).kernels == w.kernels
  {
    hide Records;
  }

  lemma PostsCounts(w: Script, call: Call)
    ensures Submission(w, call).submissions == w.submissions + 1
    ensures Submission(w, call).kernels == w.kernels + if call.symbol == LaunchKernel then 1 else 0
    ensures Recording(w, call).submissions == Waiting(w, call).submissions == w.submissions
    ensures Recording(w, call).kernels == Waiting(w, call).kernels == w.kernels
  {
    hide Records;
  }

  lemma TraceNodes(rows: seq<Row>, event: O.Key)
    requires Run(rows).Ok?
    ensures var s, w := Run(rows).value, ScriptOf(rows);
            && s.ops == w.ops && Good(s)
            && P.Run(s.ops).1.owner == w.owners && |OrderOf(s).nodes| == |w.owners|
            && Keeps(H.Told(s.ops).recorders, event, Records(s.ops, event), O.Get(w.recorders, event))
  {
    hide P.Run, H.Told, Run, ScriptOf, Accepted, EventsExist, Follows, Keeps, H.Matches, Spans, P.Inv, Records;
    var s, w := Run(rows).value, ScriptOf(rows);
    TraceNests(rows);
    ScriptExact(rows);
    SameOps(w, s);
    ScriptConsistent(rows);
    NodesExact(s.ops, event);
    H.LedgerAgrees(s.ops);
    A.SameFlags(P.Run(s.ops).0, P.Run(s.ops).1, H.Told(s.ops));
    P.RunKeepsInv(s.ops);
    P.OwnersAreNodes(P.Run(s.ops).0, P.Run(s.ops).1);
  }

  /** The nodes of an accepted trace are one for each finished launch, copy, set, record and
      wait, on the stream that row names, and the counters count such rows. */
  lemma SubmissionsExact(rows: seq<Row>)
    requires Run(rows).Ok?
    ensures P.Run(Run(rows).value.ops).1.owner == ScriptOf(rows).owners
    ensures |OrderOf(Run(rows).value).nodes| == RowsWhere(rows, SubmitsRow)
    ensures Run(rows).value.submissions == RowsWhere(rows, WorkRow)
    ensures Run(rows).value.kernels == RowsWhere(rows, LaunchRow)
  {
    hide P.Run, Run, ScriptOf, RowsWhere, Good, Follows, Keeps, Consistent;
    TraceNodes(rows, (0, 0));
    ScriptConsistent(rows);
    ScriptExact(rows);
    SameOps(ScriptOf(rows), Run(rows).value);
  }

  /** A submitting row adds one node, on the open generation of its stream; any other row adds
      none. */
  lemma RowAddsNode(rows: seq<Row>, n: nat)
    requires n < |rows| && Run(rows).Ok?
    ensures P.Run(StateAt(rows, n + 1).ops).1.owner ==
            P.Run(StateAt(rows, n).ops).1.owner
            + if SubmitsRow(rows[n]) then [TargetOf(ScriptOf(rows[..n]), rows[n])] else []
  {
    hide P.Run, Run, SubmitsRow, Good, Keeps, Consistent, Next, TargetOf;
    TraceGrows(rows, n);
    TraceGrows(rows, n + 1);
    TraceNodes(rows[..n], (0, 0));
    TraceNodes(rows[..n + 1], (0, 0));
    ScriptConsistent(rows[..n]);
    NextConsistent(ScriptOf(rows[..n]), rows[n]);
    assert rows[..n + 1][..n] == rows[..n];
  }

  lemma WaitFollows(ops: seq<O.Op>, stream: O.Key, event: O.Key)
    requires Accepted(ops + [O.Wait(stream, O.Token(event, Records(ops, event)))])
    ensures var u := P.Run(ops + [O.Wait(stream, O.Token(event, Records(ops, event)))]).0;
            LastNode(ops, event) > 0 && |u.nodes| == |OwnersIn(ops)| + 1
            && O.Precedes(u, LastNode(ops, event), |u.nodes|) == Some(true)
  {
    hide P.Run, Accepted, H.Told, H.AnswerTo, H.Matches, P.Inv, Records, OwnersIn, LastNode, Keeps,
         A.Admissible, A.Frontier, A.Affordable, A.Open, A.StreamLives, A.IsLastRecord, O.FaultOf;
    var token := O.Token(event, Records(ops, event));
    var op := O.Wait(stream, token);
    AcceptedFirst(ops, op);
    NodesExact(ops, event);
    AcceptedNow(ops, op);
    A.WaitExact(ops, stream, token);
    RecorderTold(ops, token);
    KeptRecorder(H.Told(ops).recorders, event, Records(ops, event), LastNode(ops, event));
    NewNodeCount(ops, op);
    EdgeReaches(P.Run(ops).1, P.Run(ops + [op]).1, token, A.Frontier(P.Run(ops).1, stream));
    P.LastPreceded(ops + [op], LastNode(ops, event));
  }

  lemma AcceptedFirst(ops: seq<O.Op>, op: O.Op)
    requires Accepted(ops + [op])
    ensures Accepted(ops) && O.FaultOf(P.Run(ops).0, op).None?
  {
    hide P.Run, O.FaultOf;
    assert (ops + [op])[..|ops|] == ops;
  }

  lemma KeptRecorder(recorders: map<O.Token, nat>, event: O.Key, records: nat, node: nat)
    requires Keeps(recorders, event, records, node) && records > 0
    ensures O.Token(event, records) in recorders && recorders[O.Token(event, records)] == node
  {
  }

  lemma RecorderTold(ops: seq<O.Op>, token: O.Token)
    requires P.RecorderOf(P.Run(ops).1, token).Some?
    ensures token in H.Told(ops).recorders && P.RecorderOf(P.Run(ops).1, token) == Some(H.Told(ops).recorders[token])
    ensures H.Told(ops).recorders[token] > 0
  {
    hide P.Run, H.Told, H.SameEvents, H.SameNodes;
    H.LedgerAgrees(ops);
  }

  lemma NewNodeCount(ops: seq<O.Op>, op: O.Op)
    requires Adds(op) && O.FaultOf(P.Run(ops).0, op).None?
    ensures |P.Run(ops).1.preds| == |P.Run(ops).1.owner| == |P.Run(ops).0.nodes|
    ensures forall token :: token in P.Run(ops).1.recorder ==> P.Run(ops).1.recorder[token] < |P.Run(ops).1.preds|
    ensures P.Run(ops).1.owner == H.Told(ops).owners
    ensures |P.Run(ops + [op]).1.preds| == |P.Run(ops + [op]).0.nodes| == |P.Run(ops).0.nodes| + 1
  {
    hide P.Run, O.FaultOf, P.Inv, H.Matches, H.Told;
    AcceptedNodes(ops, op);
    P.RunKeepsInv(ops);
    P.OwnersAreNodes(P.Run(ops).0, P.Run(ops).1);
    P.RunKeepsInv(ops + [op]);
    P.OwnersAreNodes(P.Run(ops + [op]).0, P.Run(ops + [op]).1);
    H.LedgerAgrees(ops);
    A.SameFlags(P.Run(ops).0, P.Run(ops).1, H.Told(ops));
  }

  lemma EdgeReaches(g: P.Graph, h: P.Graph, token: O.Token, frontier: set<nat>)
    requires token in g.recorder && g.recorder[token] < |g.preds|
    requires h.preds == g.preds + [frontier + A.Maker(g, token)]
    ensures P.Reaches(h.preds, g.recorder[token], |g.preds|)
  {
    var n, p := |g.preds|, g.recorder[token];
    assert p in h.preds[n] && P.Reaches(h.preds, p, p);
  }

  /** The order calls up to and including row n. */
  lemma RowCalls(rows: seq<Row>, n: nat)
    requires n < |rows| && Run(rows).Ok?
    ensures Consistent(ScriptOf(rows[..n])) && ScriptOf(rows[..n + 1]) == Next(ScriptOf(rows[..n]), rows[n])
    ensures StateAt(rows, n + 1).ops == ScriptOf(rows[..n + 1]).ops <= Run(rows).value.ops
    ensures Accepted(ScriptOf(rows[..n + 1]).ops)
  {
    hide Run, Accepted, EventsExist, Keeps, Consistent, Next, SubmitsRow;
    TraceGrows(rows, n + 1);
    TraceNodes(rows[..n + 1], (0, 0));
    ScriptConsistent(rows[..n]);
    assert rows[..n + 1][..n] == rows[..n];
  }

  lemma SameRecorder(w: Script, call: Call)
    requires Consistent(w)
    ensures var v := Uses(w, call);
            && Consistent(v) && v.owners == w.owners && EventOf(v, call) == EventOf(w, call)
            && LastNode(v.ops, EventOf(v, call)) == O.Get(w.recorders, EventOf(w, call))
            && OwnersIn(v.ops) == w.owners
  {
    hide LastNode, OwnersIn;
    UsesConsistent(w, call);
  }

  /** The node of a wait comes after the node of the last record of the event it waits on. */
  lemma WaitRowFollows(rows: seq<Row>, n: nat)
    requires Run(rows).Ok? && ExitAt(rows, n, StreamWaitEvent)
    ensures var w := ScriptOf(rows[..n]);
            && EventOf(w, rows[n].call) in w.recorders
            && O.Precedes(OrderOf(Run(rows).value), w.recorders[EventOf(w, rows[n].call)], |w.owners| + 1) == Some(true)
  {
    hide Run, ScriptOf, Accepted, Consistent, P.Run, Uses, LastNode, OwnersIn, Records, O.Precedes, StateAt;
    var w, call := ScriptOf(rows[..n]), rows[n].call;
    RowCalls(rows, n);
    SameRecorder(w, call);
    var v := Uses(w, call);
    var stream, event := StreamOf(v, call), EventOf(v, call);
    var inherit := O.InheritHostRetirements(stream);
    OneMoreRecord(v.ops, inherit, event);
    OneMoreOwner(v.ops, inherit);
    var before := v.ops + [inherit];
    var op := O.Wait(stream, O.Token(event, Records(before, event)));
    TwoMore(v, inherit, op);
    WaitFollows(before, stream, event);
    PrecedesInFinal(before + [op], Run(rows).value.ops, O.Get(w.recorders, event), |w.owners| + 1);
  }

  lemma PrecedesInFinal(ops: seq<O.Op>, all: seq<O.Op>, a: nat, b: nat)
    requires ops <= all && O.Precedes(P.Run(ops).0, a, b) == Some(true)
    ensures O.Precedes(P.Run(all).0, a, b) == Some(true)
  {
    hide P.Run, O.Within;
    assert ops + all[|ops|..] == all;
    P.PrecedesIsFinal(ops, all[|ops|..], a, b);
  }

  lemma DestroyedRetired(ops: seq<O.Op>, key: O.Key, node: nat)
    requires Accepted(ops + [O.DestroyStream(key)])
    requires P.OwnerOf(P.Run(ops).1, node) == Some(key)
    ensures O.Retired(P.Run(ops + [O.DestroyStream(key)]).0, node) == Some(true)
  {
    hide P.Run, Accepted, H.Told, H.Matches, P.Inv, O.FaultOf, O.Retired, H.AnswerTo, P.ReachesAny, O.Apply, O.ValidKey;
    var op := O.DestroyStream(key);
    var (s, g) := P.Run(ops);
    AcceptedFirst(ops, op);
    AcceptedNow(ops, op);
    A.AcceptedExactly(ops, op);
    H.LedgerAgrees(ops);
    A.SameFlags(s, g, H.Told(ops));
    P.RunKeepsInv(ops);
    P.OwnersAreNodes(s, g);
    P.RetiredIsWitnessed(ops, node);
    RunApply(ops, op);
    A.KeepsFlag(s, op);
    P.RetirementPersists(ops, [op], node);
  }

  /** A stream is destroyed only when every node of its generation is known to have finished. */
  lemma DestroyRowRetired(rows: seq<Row>, n: nat, node: nat)
    requires Run(rows).Ok? && ExitAt(rows, n, StreamDestroy) && 1 <= node <= |ScriptOf(rows[..n]).owners|
    requires var w := ScriptOf(rows[..n]); w.owners[node - 1] == StreamOf(Uses(w, rows[n].call), rows[n].call)
    ensures O.Retired(OrderOf(StateAt(rows, n + 1)), node) == Some(true)
  {
    hide Run, ScriptOf, Accepted, Consistent, P.Run, Uses, LastNode, OwnersIn, O.Retired, StateAt;
    var w, call := ScriptOf(rows[..n]), rows[n].call;
    RowCalls(rows, n);
    SameRecorder(w, call);
    var ops, op := Uses(w, call).ops, O.DestroyStream(StreamOf(Uses(w, call), call));
    AcceptedFirst(ops, op);
    OwnersOfRun(ops);
    DestroyedRetired(ops, op.key, node);
  }

  lemma OwnersOfRun(ops: seq<O.Op>)
    requires Accepted(ops)
    ensures P.Run(ops).1.owner == OwnersIn(ops)
  {
    hide P.Run, Accepted, H.Told, H.Matches, OwnersIn, Keeps;
    NodesExact(ops, (0, 0));
    H.LedgerAgrees(ops);
    A.SameFlags(P.Run(ops).0, P.Run(ops).1, H.Told(ops));
  }

  // ---- which finished calls are accepted ----

  /** The order model accepts every call of `all` beyond `base`. */
  ghost predicate Accepts(base: seq<O.Op>, all: seq<O.Op>) {
    forall i :: |base| <= i < |all| ==> !H.AnswerTo(all[..i], all[i]).Rejected?
  }

  /** The call names a live stream of its kind, or a per-thread stream never seen before. */
  predicate NamesStream(w: Script, call: Call) {
    call.stream != 0 && call.kind != NoStream
    && if call.stream in w.streams then w.streams[call.stream].0 == call.kind
       else call.kind == PerThread && call.stream !in w.streamIds
  }

  /** The call names streams and events that fit the script. */
  predicate Shaped(w: Script, call: Call) {
    match call.symbol
    case LaunchKernel => NamesStream(w, call)
    case CopyHtoD => NamesStream(w, call)
    case CopyDtoH => NamesStream(w, call)
    case CopyDtoD => NamesStream(w, call)
    case Memset => NamesStream(w, call)
    case StreamDestroy => NamesStream(w, call)
    case StreamSynchronize => NamesStream(w, call)
    case EventRecord => NamesStream(w, call) && call.event in w.events
    case StreamWaitEvent => NamesStream(w, call) && call.event in w.events && call.flags == 0
    case StreamCreate => call.stream != 0 && call.stream !in w.streams && call.kind == Explicit && call.flags == 1
    case EventCreate => call.event != 0 && call.event !in w.events
    case EventDestroy => call.event in w.events
    case EventQuery => call.event in w.events
    case EventSynchronize => call.event in w.events
    case _ => true
  }

  lemma AcceptsNothing(ops: seq<O.Op>)
    ensures Accepts(ops, ops)
  {
  }

  lemma AcceptsMore(base: seq<O.Op>, ops: seq<O.Op>, op: O.Op)
    requires |base| <= |ops|
    ensures Accepts(base, ops + [op]) <==> Accepts(base, ops) && !H.AnswerTo(ops, op).Rejected?
  {
    hide H.AnswerTo;
    var all := ops + [op];
    assert all[..|ops|] == ops;
    forall i | |base| <= i < |ops| ensures all[..i] == ops[..i] && all[i] == ops[i] {
    }
    if Accepts(base, all) {
      assert !H.AnswerTo(all[..|ops|], all[|ops|]).Rejected?;
      forall i | |base| <= i < |ops| ensures !H.AnswerTo(ops[..i], ops[i]).Rejected? {
        assert !H.AnswerTo(all[..i], all[i]).Rejected?;
      }
    }
  }

  /** A single order call of the trace: accepted exactly when the script's next call is. */
  lemma SaidAccepted(base: seq<O.Op>, w: Script, s: State, op: O.Op)
    requires Follows(w, s) && |base| <= |w.ops| && Accepts(base, w.ops)
    ensures Do(s, op).Ok? <==> Accepts(base, Says(w, op).ops)
    ensures Do(s, op).Ok? ==> Follows(Says(w, op), Do(s, op).value)
  {
    hide P.Run, O.FaultOf, H.AnswerTo, Accepts;
    AcceptedNow(s.ops, op);
    AcceptsMore(base, w.ops, op);
    DoneExact(s, op);
  }

  lemma OpensAccepted(w: Script, s: State, call: Call, kind: StreamKind)
    requires Follows(w, s)
    ensures NewStream(s, call.stream, kind).Ok? <==> Accepts(w.ops, Opens(w, call, kind).ops)
  {
    hide Do, Accepts;
    AcceptsNothing(w.ops);
    SaidAccepted(w.ops, w, s, O.CreateStream((call.stream, O.Get(w.streamIds, call.stream) + 1)));
  }

  lemma UsesAccepted(w: Script, s: State, call: Call)
    requires Follows(w, s)
    ensures Target(s, call).Ok? <==> NamesStream(w, call) && Accepts(w.ops, Uses(w, call).ops)
    ensures w.ops <= Uses(w, call).ops
  {
    hide NewStream, Accepts;
    AcceptsNothing(w.ops);
    OpensAccepted(w, s, call, PerThread);
  }

  /** Without an accepted beginning nothing longer is accepted. */
  lemma AcceptsPrefix(base: seq<O.Op>, ops: seq<O.Op>, all: seq<O.Op>)
    requires ops <= all && Accepts(base, all)
    ensures Accepts(base, ops)
  {
    hide H.AnswerTo;
    forall i | |base| <= i < |ops| ensures !H.AnswerTo(ops[..i], ops[i]).Rejected? {
      assert all[..i] == ops[..i] && all[i] == ops[i];
      assert !H.AnswerTo(all[..i], all[i]).Rejected?;
    }
  }

  lemma InheritedAccepted(w: Script, s: State, call: Call)
    requires Follows(w, s)
    ensures var v := Uses(w, call);
            var u := Says(v, O.InheritHostRetirements(StreamOf(v, call)));
            && (Inherited(s, call).Ok? <==> NamesStream(w, call) && Accepts(w.ops, u.ops))
            && (Inherited(s, call).Ok? ==> Follows(u, Inherited(s, call).value))
            && w.ops <= v.ops <= u.ops
  {
    hide Do, Target, StreamKey, Uses, NamesStream, Accepts, Follows;
    var v := Uses(w, call);
    var op := O.InheritHostRetirements(StreamOf(v, call));
    UsesAccepted(w, s, call);
    UsesExact(w, s, call);
    if Target(s, call).Ok? {
      SameStream(v, Target(s, call).value, call);
      SaidAccepted(w.ops, v, Target(s, call).value, op);
    } else if Accepts(w.ops, v.ops + [op]) {
      AcceptsPrefix(w.ops, v.ops, v.ops + [op]);
    }
  }

  lemma SubmittedAccepted(w: Script, s: State, call: Call)
    requires Follows(w, s)
    ensures Submitted(s, call).Ok? <==> NamesStream(w, call) && Accepts(w.ops, Submission(Uses(w, call), call).ops)
  {
    hide Do, Inherited, StreamKey, Uses, NamesStream, Accepts, Follows;
    var v := Uses(w, call);
    var u := Says(v, O.InheritHostRetirements(StreamOf(v, call)));
    var op := O.Submit(StreamOf(v, call));
    InheritedAccepted(w, s, call);
    TwoMore(v, O.InheritHostRetirements(StreamOf(v, call)), op);
    if Inherited(s, call).Ok? {
      SameStream(u, Inherited(s, call).value, call);
      SaidAccepted(w.ops, u, Inherited(s, call).value, op);
    } else if Accepts(w.ops, u.ops + [op]) {
      AcceptsPrefix(w.ops, u.ops, u.ops + [op]);
    }
  }

  lemma RecordedAccepted(w: Script, s: State, call: Call)
    requires Follows(w, s)
    ensures Recorded(s, call).Ok? <==>
            NamesStream(w, call) && call.event in w.events && Accepts(w.ops, Recording(Uses(w, call), call).ops)
  {
    hide Do, Inherited, StreamKey, Uses, NamesStream, Accepts, Follows, EventKey;
    var v := Uses(w, call);
    var u := Says(v, O.InheritHostRetirements(StreamOf(v, call)));
    var op := O.Record(EventOf(v, call), StreamOf(v, call));
    InheritedAccepted(w, s, call);
    UsesEvents(w, call);
    TwoMore(v, O.InheritHostRetirements(StreamOf(v, call)), op);
    if Inherited(s, call).Ok? {
      SameStream(u, Inherited(s, call).value, call);
      EventKnown(u, Inherited(s, call).value, call);
      SaidAccepted(w.ops, u, Inherited(s, call).value, op);
    } else if Accepts(w.ops, u.ops + [op]) {
      AcceptsPrefix(w.ops, u.ops, u.ops + [op]);
    }
  }

  lemma UsesEvents(w: Script, call: Call)
    ensures Uses(w, call).events == w.events
  {
  }

  lemma EventKnown(w: Script, s: State, call: Call)
    requires Follows(w, s)
    ensures EventKey(s, call.event).Ok? <==> call.event in w.events
  {
  }

  lemma WaitedAccepted(w: Script, s: State, call: Call)
    requires Good(s) && Follows(w, s)
    ensures Waited(s, call).Ok? <==>
            NamesStream(w, call) && call.event in w.events && call.flags == 0
            && Accepts(w.ops, Waiting(Uses(w, call), call).ops)
  {
    hide Do, Target, StreamKey, Uses, NamesStream, Accepts, Follows, EventKey, CurrentToken, Good, Records;
    var v := Uses(w, call);
    var stream, event := StreamOf(v, call), EventOf(v, call);
    var inherit := O.InheritHostRetirements(stream);
    var op := O.Wait(stream, O.Token(event, Records(v.ops, event)));
    UsesAccepted(w, s, call);
    UsesExact(w, s, call);
    UsesEvents(w, call);
    TargetEvolves(s, call);
    TwoMore(v, inherit, op);
    OneMoreRecord(v.ops, inherit, event);
    if Target(s, call).Ok? && call.event in w.events {
      var t := Target(s, call).value;
      SameStream(v, t, call);
      EventKnown(v, t, call);
      SameOps(v, t);
      SaidAccepted(w.ops, v, t, inherit);
      DoEvolves(t, inherit);
      if Do(t, inherit).Ok? {
        SameOps(Says(v, inherit), Do(t, inherit).value);
        EventsOfDo(t, inherit, call.event);
        TokenExists(Do(t, inherit).value, call.event);
        TokenExact(Do(t, inherit).value, event);
        SaidAccepted(w.ops, Says(v, inherit), Do(t, inherit).value, op);
      } else if Accepts(w.ops, v.ops + [inherit] + [op]) {
        AcceptsPrefix(w.ops, v.ops + [inherit], v.ops + [inherit] + [op]);
      }
    } else {
      if Target(s, call).Ok? { EventKnown(v, Target(s, call).value, call); }
      if Accepts(w.ops, v.ops + [inherit] + [op]) {
        AcceptsPrefix(w.ops, v.ops, v.ops + [inherit] + [op]);
      }
    }
  }

  lemma EventsOfDo(s: State, op: O.Op, event: nat)
    requires Do(s, op).Ok?
    ensures EventKey(Do(s, op).value, event) == EventKey(s, event)
  {
    hide P.Run, O.FaultOf;
  }

  lemma QueriedAccepted(w: Script, s: State, call: Call)
    requires Good(s) && Follows(w, s)
    ensures Queried(s, call).Ok? <==> call.event in w.events && Accepts(w.ops, Asks(w, call).ops)
  {
    hide Do, EventKey, Accepts, Follows, CurrentToken, Good, Records;
    EventKnown(w, s, call);
    if call.event in w.events {
      SameStream(w, s, call);
      SameOps(w, s);
      TokenExists(s, call.event);
      TokenExact(s, EventOf(w, call));
      AcceptsNothing(w.ops);
      SaidAccepted(w.ops, w, s, O.Query(O.Token(EventOf(w, call), Records(w.ops, EventOf(w, call))),
                                        if call.result == 0 then O.Success else O.NotReady));
    }
  }

  lemma StreamCallAccepted(w: Script, s: State, call: Call)
    requires Follows(w, s) && (call.symbol.StreamDestroy? || call.symbol.StreamSynchronize?)
    ensures DeviceEffect(s, call).Ok? <==> NamesStream(w, call) && Accepts(w.ops, Finish(w, call).ops)
  {
    hide Do, Target, StreamKey, Uses, NamesStream, Accepts, Follows;
    var v := Uses(w, call);
    var op := if call.symbol.StreamDestroy? then O.DestroyStream(StreamOf(v, call))
              else O.SynchronizeStream(StreamOf(v, call), O.Success);
    UsesAccepted(w, s, call);
    UsesExact(w, s, call);
    if Target(s, call).Ok? {
      SameStream(v, Target(s, call).value, call);
      SaidAccepted(w.ops, v, Target(s, call).value, op);
    } else if Accepts(w.ops, v.ops + [op]) {
      AcceptsPrefix(w.ops, v.ops, v.ops + [op]);
    }
  }

  lemma EventCallAccepted(w: Script, s: State, call: Call)
    requires Follows(w, s) && (call.symbol.EventCreate? || call.symbol.EventDestroy?)
    ensures DeviceEffect(s, call).Ok? <==> Shaped(w, call) && Accepts(w.ops, Finish(w, call).ops)
  {
    hide Do, EventKey, Accepts;
    EventKnown(w, s, call);
    SameStream(w, s, call);
    AcceptsNothing(w.ops);
    SaidAccepted(w.ops, w, s, if call.symbol.EventDestroy? then O.DestroyEvent(EventOf(w, call))
                              else O.CreateEvent((call.event, O.Get(w.eventIds, call.event) + 1)));
  }

  lemma OneCallAccepted(w: Script, s: State, call: Call)
    requires Follows(w, s) && call.symbol in {CtxSynchronize, CtxSynchronizeV2, StreamCreate}
    ensures DeviceEffect(s, call).Ok? <==> Shaped(w, call) && Accepts(w.ops, Finish(w, call).ops)
  {
    hide Do, Accepts, NewStream, Opens;
    AcceptsNothing(w.ops);
    SaidAccepted(w.ops, w, s, O.SynchronizeContext(O.Success));
    OpensAccepted(w, s, call, Explicit);
  }

  /** In the retained context a finished device call is accepted exactly when it names streams
      and events that fit and the order model accepts each of the calls it makes. */
  lemma DeviceAccepted(w: Script, s: State, call: Call)
    requires Good(s) && Follows(w, s)
    ensures DeviceEffect(s, call).Ok? <==> Shaped(w, call) && Accepts(w.ops, Finish(w, call).ops)
  {
    hide Do, Submitted, Recorded, Waited, Queried, NewStream, DestroyedStream, SynchronizedStream, CreatedEvent,
         DestroyedEvent, Good, Follows, Opens, Uses, Submission, Recording, Waiting, Asks, Accepts, NamesStream;
    match call.symbol
    case LaunchKernel => SubmittedAccepted(w, s, call);
    case CopyHtoD => SubmittedAccepted(w, s, call);
    case CopyDtoH => SubmittedAccepted(w, s, call);
    case CopyDtoD => SubmittedAccepted(w, s, call);
    case Memset => SubmittedAccepted(w, s, call);
    case EventRecord => RecordedAccepted(w, s, call);
    case StreamWaitEvent => WaitedAccepted(w, s, call);
    case StreamDestroy => StreamCallAccepted(w, s, call);
    case StreamSynchronize => StreamCallAccepted(w, s, call);
    case EventCreate => EventCallAccepted(w, s, call);
    case EventDestroy => EventCallAccepted(w, s, call);
    case EventQuery => QueriedAccepted(w, s, call);
    case EventSynchronize => QueriedAccepted(w, s, call);
    case StreamCreate => OneCallAccepted(w, s, call);
    case CtxSynchronize => OneCallAccepted(w, s, call);
    case CtxSynchronizeV2 => OneCallAccepted(w, s, call);
    case _ => AcceptsNothing(w.ops);
  }
}
