/** The order witness of python/xvram/compat_audit_order.py: API callbacks that drive the
    device order model. */
module OrderTrace {
  import opened Options
  import O = OrderModel
  import P = OrderProofs

  datatype Symbol =
    | CtxGetCurrent | CtxGetDevice | CtxGetLimit | StreamGetCtx | StreamGetGreenCtx
    | LaunchKernel | CopyHtoD | CopyDtoH | CopyDtoD | Memset
    | PrimaryCtxRetain | CtxSetCurrent | CtxSynchronize | CtxSynchronizeV2
    | StreamCreate | StreamDestroy | StreamSynchronize | EventCreate | EventDestroy | EventRecord
    | EventQuery | EventSynchronize | StreamWaitEvent | Unsupported

  datatype StreamKind = NoStream | Explicit | PerThread | Legacy

  datatype Call = Call(api: nat, thread: nat, context: nat, stream: nat, event: nat, flags: nat,
                       kind: StreamKind, symbol: Symbol, terminalTool: bool, result: nat)

  datatype Row =
    | Enter(call: Call)
    | Exit(call: Call)
    | Seal(openCalls: nat)
    | Summary(gpuDrained: bool, censusDrained: bool, sealed: bool, errors: nat, openCalls: nat)

  /** `ops` is the history of calls on the device order model, whose state is `Run(ops).0`. */
  datatype State = State(ops: seq<O.Op>, streams: map<nat, (StreamKind, nat)>, events: map<nat, nat>,
                         streamGenerations: map<nat, nat>, eventGenerations: map<nat, nat>,
                         pending: map<nat, Call>, calls: map<nat, (Symbol, nat)>, threads: set<nat>,
                         contexts: set<nat>, stack: seq<nat>, submissions: nat, kernels: nat,
                         sealed: bool, done: bool, active: Option<nat>)

  const INITIAL := State([], map[], map[], map[], map[], map[], map[], {}, {}, [], 0, 0, false, false, None)

  const MAX_API := 2_000_000
  const MAX_ID := 100_000
  const MAX_STACK := 64

  /** `MissingKey` is the Python KeyError of reading an absent event of the order model. */
  datatype Fault = MissingKey | OrderFault(fault: O.Fault) | AfterTerminal | SealWithProducers | TerminalUnproven
                 | Range | UnsupportedApi | UnexpectedTerminalTool | LateProducer | MultipleProducers
                 | MultipleContexts | InvalidEnter | OverlappingMutations | CallbackDepth | StackMismatch
                 | PairMismatch | GreenContext | QueryFailure | NativeFailure | ContextAdmission | ContextSwitch
                 | WrongContext | StreamMissing | UncreatedStream | KindChanged | StreamCreation
                 | UncreatedEvent | EventCreation | WaitFlags | TerminalMissing

  datatype Outcome<+T> = Ok(value: T) | Fail(fault: Fault)

  predicate IsQuery(symbol: Symbol) {
    symbol.CtxGetCurrent? || symbol.CtxGetDevice? || symbol.CtxGetLimit? || symbol.StreamGetCtx?
    || symbol.StreamGetGreenCtx?
  }

  predicate IsMutation(symbol: Symbol) {
    !IsQuery(symbol) && !symbol.Unsupported?
  }

  function OrderOf(s: State): O.State {
    P.Run(s.ops).0
  }

  /** One call on the order model; a refusal ends the analysis. */
  function Do(s: State, op: O.Op): Outcome<State> {
    var fault := O.FaultOf(OrderOf(s), op);
    if fault.Some? then Fail(OrderFault(fault.value)) else Ok(s.(ops := s.ops + [op]))
  }

  // ---- streams and events ----

  function NewStream(s: State, key: nat, kind: StreamKind): Outcome<State> {
    var generation := O.Get(s.streamGenerations, key) + 1;
    var t := Do(s, O.CreateStream((key, generation)));
    if t.Fail? then t
    else Ok(t.value.(streams := s.streams[key := (kind, generation)],
                     streamGenerations := s.streamGenerations[key := generation]))
  }

  /** Finds the stream of a call, creating a per-thread stream on its first use. */
  function Target(s: State, call: Call): Outcome<State> {
    if call.stream == 0 || call.kind == NoStream then Fail(StreamMissing)
    else if call.stream !in s.streams then
      if call.kind != PerThread || call.stream in s.streamGenerations then Fail(UncreatedStream)
      else NewStream(s, call.stream, PerThread)
    else if s.streams[call.stream].0 != call.kind then Fail(KindChanged)
    else Ok(s)
  }

  /** The order model's key of a stream of the table. */
  function StreamKey(s: State, stream: nat): O.Key {
    if stream in s.streams then (stream, s.streams[stream].1) else (stream, 0)
  }

  function EventKey(s: State, event: nat): Outcome<O.Key> {
    if event in s.events then Ok((event, s.events[event])) else Fail(UncreatedEvent)
  }

  function CurrentToken(s: State, key: O.Key): Outcome<O.Token> {
    if key in OrderOf(s).events then Ok(O.Token(key, OrderOf(s).events[key])) else Fail(MissingKey)
  }

  /** The stream of a call after it has inherited the host's retirements. */
  function Inherited(s: State, call: Call): Outcome<State> {
    var t := Target(s, call);
    if t.Fail? then t else Do(t.value, O.InheritHostRetirements(StreamKey(t.value, call.stream)))
  }

  // ---- the effect of a finished mutation ----

  function Submitted(s: State, call: Call): Outcome<State> {
    var t := Inherited(s, call);
    if t.Fail? then t
    else
      var u := Do(t.value, O.Submit(StreamKey(t.value, call.stream)));
      if u.Fail? then u
      else Ok(u.value.(submissions := u.value.submissions + 1,
                       kernels := u.value.kernels + if call.symbol == LaunchKernel then 1 else 0))
  }

  function CreatedStream(s: State, call: Call): Outcome<State> {
    if call.stream == 0 || call.stream in s.streams || call.kind != Explicit || call.flags != 1
    then Fail(StreamCreation) else NewStream(s, call.stream, Explicit)
  }

  function DestroyedStream(s: State, call: Call): Outcome<State> {
    var t := Target(s, call);
    if t.Fail? then t
    else
      var u := Do(t.value, O.DestroyStream(StreamKey(t.value, call.stream)));
      if u.Fail? then u else Ok(u.value.(streams := t.value.streams - {call.stream}))
  }

  function SynchronizedStream(s: State, call: Call): Outcome<State> {
    var t := Target(s, call);
    if t.Fail? then t else Do(t.value, O.SynchronizeStream(StreamKey(t.value, call.stream), O.Success))
  }

  function CreatedEvent(s: State, call: Call): Outcome<State> {
    if call.event == 0 || call.event in s.events then Fail(EventCreation)
    else
      var generation := O.Get(s.eventGenerations, call.event) + 1;
      var t := Do(s, O.CreateEvent((call.event, generation)));
      if t.Fail? then t
      else Ok(t.value.(events := s.events[call.event := generation],
                       eventGenerations := s.eventGenerations[call.event := generation]))
  }

  function DestroyedEvent(s: State, call: Call): Outcome<State> {
    var key := EventKey(s, call.event);
    if key.Fail? then Fail(key.fault)
    else
      var t := Do(s, O.DestroyEvent(key.value));
      if t.Fail? then t else Ok(t.value.(events := s.events - {call.event}))
  }

  function Recorded(s: State, call: Call): Outcome<State> {
    var t := Inherited(s, call);
    if t.Fail? then t
    else
      var key := EventKey(t.value, call.event);
      if key.Fail? then Fail(key.fault) else Do(t.value, O.Record(key.value, StreamKey(t.value, call.stream)))
  }

  function Queried(s: State, call: Call): Outcome<State> {
    var key := EventKey(s, call.event);
    if key.Fail? then Fail(key.fault)
    else
      var token := CurrentToken(s, key.value);
      if token.Fail? then Fail(token.fault)
      else Do(s, O.Query(token.value, if call.result == 0 then O.Success else O.NotReady))
  }

  function Waited(s: State, call: Call): Outcome<State> {
    if call.flags != 0 then Fail(WaitFlags)
    else
      var t := Target(s, call);
      if t.Fail? then t
      else
        var key := EventKey(t.value, call.event);
        if key.Fail? then Fail(key.fault)
        else
          var stream := StreamKey(t.value, call.stream);
          var u := Do(t.value, O.InheritHostRetirements(stream));
          if u.Fail? then u
          else
            var token := CurrentToken(u.value, key.value);
            if token.Fail? then Fail(token.fault) else Do(u.value, O.Wait(stream, token.value))
  }

  /** The calls that need the admitted context. */
  function DeviceEffect(s: State, call: Call): Outcome<State> {
    match call.symbol
    case LaunchKernel => Submitted(s, call)
    case CopyHtoD => Submitted(s, call)
    case CopyDtoH => Submitted(s, call)
    case CopyDtoD => Submitted(s, call)
    case Memset => Submitted(s, call)
    case StreamCreate => CreatedStream(s, call)
    case StreamDestroy => DestroyedStream(s, call)
    case StreamSynchronize => SynchronizedStream(s, call)
    case CtxSynchronize => Do(s, O.SynchronizeContext(O.Success))
    case CtxSynchronizeV2 => Do(s, O.SynchronizeContext(O.Success))
    case EventCreate => CreatedEvent(s, call)
    case EventDestroy => DestroyedEvent(s, call)
    case EventRecord => Recorded(s, call)
    case EventQuery => Queried(s, call)
    case EventSynchronize => Queried(s, call)
    case StreamWaitEvent => Waited(s, call)
    case _ => Ok(s)
  }

  function Effect(s: State, call: Call): Outcome<State> {
    if call.symbol == PrimaryCtxRetain then
      if s.active.Some? || call.context == 0 then Fail(ContextAdmission)
      else Ok(s.(active := Some(call.context)))
    else if call.symbol == CtxSetCurrent then
      if (s.active.Some? && call.context != s.active.value) || s.submissions != 0 then Fail(ContextSwitch) else Ok(s)
    else if s.active != Some(call.context) then Fail(WrongContext)
    else DeviceEffect(s, call)
  }

  // ---- rows ----

  function AdmitCall(s: State, call: Call): Outcome<State> {
    if !(1 <= call.api <= MAX_API) || !(1 <= call.thread <= MAX_ID) || call.context > MAX_ID || call.stream > MAX_ID
       || call.event > MAX_ID || call.flags > 0xffff_ffff || call.result > 0x7fff_ffff
    then Fail(Range)
    else if call.symbol.Unsupported? then Fail(UnsupportedApi)
    else if call.terminalTool && (!s.sealed || call.symbol != CtxSynchronize) then Fail(UnexpectedTerminalTool)
    else if !call.terminalTool && s.sealed then Fail(LateProducer)
    else
      var threads := s.threads + {call.thread};
      var contexts := if call.context != 0 then s.contexts + {call.context} else s.contexts;
      if |threads| != 1 then Fail(MultipleProducers)
      else if call.context != 0 && |contexts| != 1 then Fail(MultipleContexts)
      else Ok(s.(threads := threads, contexts := contexts))
  }

  predicate MutationPending(s: State) {
    exists api :: api in s.pending && IsMutation(s.pending[api].symbol)
  }

  function EnterCall(s: State, call: Call): Outcome<State> {
    if call.api in s.calls || call.api in s.pending || call.result != 0 then Fail(InvalidEnter)
    else if IsMutation(call.symbol) && MutationPending(s) then Fail(OverlappingMutations)
    else if |s.stack| >= MAX_STACK then Fail(CallbackDepth)
    else Ok(s.(pending := s.pending[call.api := call], stack := s.stack + [call.api]))
  }

  /** The exit repeats the enter except for the result and what the call may return. */
  predicate Paired(begin: Call, end: Call) {
    var expected :=
      match end.symbol
      case StreamCreate => begin.(stream := end.stream, kind := end.kind)
      case EventCreate => begin.(event := end.event)
      case PrimaryCtxRetain => begin.(context := end.context)
      case StreamGetGreenCtx => begin.(flags := end.flags)
      case _ => begin;
    expected.(result := end.result) == end
  }

  function FinishQuery(s: State, call: Call): Outcome<State> {
    if call.symbol == StreamGetGreenCtx && call.flags != 0 then Fail(GreenContext)
    else if call.result != 0
            && !(call.symbol == CtxGetDevice && call.context == 0 && s.active.None? && call.result == 201)
    then Fail(QueryFailure)
    else Ok(s)
  }

  /** Takes the exiting call off the stack, once it is known to be the innermost one. */
  function Pop(s: State, call: Call): Outcome<State> {
    if s.stack == [] || s.stack[|s.stack| - 1] != call.api then Fail(StackMismatch)
    else if call.api !in s.pending || !Paired(s.pending[call.api], call) then Fail(PairMismatch)
    else Ok(s.(stack := s.stack[..|s.stack| - 1], pending := s.pending - {call.api},
               calls := s.calls[call.api := (call.symbol, call.result)]))
  }

  function ExitCall(s: State, call: Call): Outcome<State> {
    var t := Pop(s, call);
    if t.Fail? then t
    else if IsQuery(call.symbol) then FinishQuery(t.value, call)
    else if call.result != 0 && !(call.symbol == EventQuery && call.result == 600) then Fail(NativeFailure)
    else Effect(t.value, call)
  }

  predicate AllRetired(s: State) {
    forall node | 1 <= node <= |OrderOf(s).nodes| :: O.Retired(OrderOf(s), node) == Some(true)
  }

  predicate NoExplicitStream(s: State) {
    forall k :: k in s.streams ==> s.streams[k].0 != Explicit
  }

  function Step(s: State, row: Row): Outcome<State> {
    if s.done then Fail(AfterTerminal)
    else
      match row
      case Seal(openCalls) =>
        if s.sealed || s.pending != map[] || openCalls != 0 then Fail(SealWithProducers)
        else
          var t := Do(s, O.SealSubmissions);
          if t.Fail? then t else Ok(t.value.(sealed := true))
      case Summary(gpuDrained, censusDrained, sealed, errors, openCalls) =>
        if !s.sealed || s.pending != map[] || s.events != map[] || errors != 0 || openCalls != 0
           || !gpuDrained || !censusDrained || !sealed || !NoExplicitStream(s) || s.kernels == 0 || !AllRetired(s)
        then Fail(TerminalUnproven)
        else Ok(s.(done := true))
      case Enter(call) =>
        var t := AdmitCall(s, call);
        if t.Fail? then t else EnterCall(t.value, call)
      case Exit(call) =>
        var t := AdmitCall(s, call);
        if t.Fail? then t else ExitCall(t.value, call)
  }

  function Run(rows: seq<Row>): Outcome<State> {
    if rows == [] then Ok(INITIAL)
    else
      var before := Run(rows[..|rows| - 1]);
      if before.Ok? then Step(before.value, rows[|rows| - 1]) else before
  }

  /** The state before row n of an accepted trace. */
  function StateAt(rows: seq<Row>, n: nat): State
    requires n <= |rows|
  {
    if Run(rows[..n]).Ok? then Run(rows[..n]).value else INITIAL
  }
}
