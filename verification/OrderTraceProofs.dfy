/** What every accepted order trace guarantees: nested callbacks, disjoint mutations, and
    submissions ordered after what the host had seen complete. */
module OrderTraceProofs {
  import opened Options
  import O = OrderModel
  import P = OrderProofs
  import opened OrderTrace

  // ---- the calls made on the device order ----

  /** The operations that submit a node. */
  predicate Adds(op: O.Op) {
    op.Submit? || op.Record? || op.Wait?
  }

  /** The history ends with the stream inheriting the host's retirements. */
  predicate JustInherited(ops: seq<O.Op>, stream: O.Key) {
    ops != [] && ops[|ops| - 1] == O.InheritHostRetirements(stream)
  }

  /** No operation was refused, and every submission directly follows an inheritance by the
      same stream. */
  ghost predicate Accepted(ops: seq<O.Op>) {
    ops == [] ||
    var init, op := ops[..|ops| - 1], ops[|ops| - 1];
    && Accepted(init) && O.FaultOf(P.Run(init).0, op).None?
    && (Adds(op) ==> JustInherited(init, op.stream))
  }

  lemma AcceptOne(ops: seq<O.Op>, op: O.Op)
    requires Accepted(ops) && O.FaultOf(P.Run(ops).0, op).None? && (Adds(op) ==> JustInherited(ops, op.stream))
    ensures Accepted(ops + [op])
  {
    assert (ops + [op])[..|ops|] == ops;
  }

  /** Every event of the table exists in the order model. */
  ghost predicate EventsExist(s: State) {
    forall e :: e in s.events ==> (e, s.events[e]) in OrderOf(s).events
  }

  ghost predicate Good(s: State) {
    Accepted(s.ops) && EventsExist(s)
  }

  predicate SameCalls(s: State, t: State) {
    s.pending == t.pending && s.stack == t.stack && s.calls == t.calls
  }

  /** A transformation that makes accepted order calls and leaves the API bookkeeping alone. */
  ghost predicate Evolves(s: State, t: State) {
    SameCalls(s, t) && s.done == t.done && s.ops <= t.ops && Good(t)
  }

  lemma RecordedEventLives(s: O.State, op: O.Op)
    requires O.FaultOf(s, op).None? && op.Record?
    ensures op.event in s.events
  {
    hide O.SubmitFault, O.AdmitFault, O.ValidKey;
  }

  lemma ApplyEvents(s: O.State, op: O.Op)
    requires O.FaultOf(s, op).None?
    ensures O.Apply(s, op).events.Keys ==
              if op.CreateEvent? then s.events.Keys + {op.key}
              else if op.DestroyEvent? then s.events.Keys - {op.key} else s.events.Keys
    ensures |O.Apply(s, op).nodes| == |s.nodes| + if Adds(op) then 1 else 0
  {
    hide O.FaultOf, O.Join, O.JoinAll, O.Tick, O.Remove, O.SubmitCost;
    if op.Record? { RecordedEventLives(s, op); }
  }

  lemma RunApply(ops: seq<O.Op>, op: O.Op)
    requires O.FaultOf(P.Run(ops).0, op).None?
    ensures P.Run(ops + [op]).0 == O.Apply(P.Run(ops).0, op)
  {
    hide P.Run, O.FaultOf, O.Apply, P.Track;
    P.RunOneMore(ops, op);
  }

  lemma EventKeys(ops: seq<O.Op>, op: O.Op)
    requires O.FaultOf(P.Run(ops).0, op).None?
    ensures var before, after := P.Run(ops).0.events.Keys, P.Run(ops + [op]).0.events.Keys;
            after == if op.CreateEvent? then before + {op.key}
                     else if op.DestroyEvent? then before - {op.key} else before
  {
    hide P.Run, O.FaultOf, O.Apply;
    RunApply(ops, op);
    ApplyEvents(P.Run(ops).0, op);
  }

  lemma EventsStay(s: State, op: O.Op)
    requires EventsExist(s) && O.FaultOf(OrderOf(s), op).None? && !op.DestroyEvent?
    ensures EventsExist(s.(ops := s.ops + [op]))
  {
    hide P.Run, O.FaultOf;
    EventKeys(s.ops, op);
  }

  /** One order call that destroys no event. */
  lemma DoEvolves(s: State, op: O.Op)
    requires Good(s) && !op.DestroyEvent? && (Adds(op) ==> JustInherited(s.ops, op.stream))
    ensures Do(s, op) != Fail(MissingKey)
    ensures Do(s, op).Ok? ==> Evolves(s, Do(s, op).value) && Do(s, op).value == s.(ops := s.ops + [op])
  {
    hide O.FaultOf, P.Run, Accepted, EventsExist, JustInherited;
    if Do(s, op).Ok? {
      AcceptOne(s.ops, op);
      EventsStay(s, op);
    }
  }

  lemma NewStreamEvolves(s: State, key: nat, kind: StreamKind)
    requires Good(s)
    ensures NewStream(s, key, kind) != Fail(MissingKey)
    ensures NewStream(s, key, kind).Ok? ==>
              Evolves(s, NewStream(s, key, kind).value) && key in NewStream(s, key, kind).value.streams
  {
    hide Do, Accepted, EventsExist;
    var op := O.CreateStream((key, O.Get(s.streamGenerations, key) + 1));
    DoEvolves(s, op);
    if NewStream(s, key, kind).Ok? { SameEvents(Do(s, op).value, NewStream(s, key, kind).value); }
  }

  lemma SameEvents(s: State, t: State)
    requires Good(s) && t.ops == s.ops && t.events == s.events
    ensures Good(t)
  {
    hide Accepted, P.Run;
  }

  lemma TargetEvolves(s: State, call: Call)
    requires Good(s)
    ensures Target(s, call) != Fail(MissingKey)
    ensures Target(s, call).Ok? ==> Evolves(s, Target(s, call).value) && call.stream in Target(s, call).value.streams
    ensures call.stream in s.streams && Target(s, call).Ok? ==> Target(s, call).value == s
  {
    hide NewStream, Accepted, EventsExist;
    NewStreamEvolves(s, call.stream, PerThread);
  }

  lemma InheritedEvolves(s: State, call: Call)
    requires Good(s)
    ensures Inherited(s, call) != Fail(MissingKey)
    ensures Inherited(s, call).Ok? ==>
              var t := Inherited(s, call).value; Evolves(s, t) && JustInherited(t.ops, StreamKey(t, call.stream))
  {
    hide Do, Target, Accepted, EventsExist;
    TargetEvolves(s, call);
    var t := Target(s, call);
    if t.Ok? { DoEvolves(t.value, O.InheritHostRetirements(StreamKey(t.value, call.stream))); }
  }

  lemma SubmittedEvolves(s: State, call: Call)
    requires Good(s)
    ensures Submitted(s, call) != Fail(MissingKey)
    ensures Submitted(s, call).Ok? ==> Evolves(s, Submitted(s, call).value)
  {
    hide Do, Inherited, StreamKey, Accepted;
    InheritedEvolves(s, call);
    var t := Inherited(s, call);
    if t.Ok? { DoEvolves(t.value, O.Submit(StreamKey(t.value, call.stream))); }
  }

  lemma DestroyedStreamEvolves(s: State, call: Call)
    requires Good(s)
    ensures DestroyedStream(s, call) != Fail(MissingKey)
    ensures DestroyedStream(s, call).Ok? ==> Evolves(s, DestroyedStream(s, call).value)
  {
    hide Do, Target, StreamKey, Accepted;
    TargetEvolves(s, call);
    var t := Target(s, call);
    if t.Ok? { DoEvolves(t.value, O.DestroyStream(StreamKey(t.value, call.stream))); }
  }

  lemma SynchronizedStreamEvolves(s: State, call: Call)
    requires Good(s)
    ensures SynchronizedStream(s, call) != Fail(MissingKey)
    ensures SynchronizedStream(s, call).Ok? ==>
              var t := SynchronizedStream(s, call).value;
              && Evolves(s, t)
              && (call.stream in s.streams ==>
                    t.ops == s.ops + [O.SynchronizeStream(StreamKey(s, call.stream), O.Success)])
  {
    hide Do, Target, StreamKey, Accepted, EventsExist;
    TargetEvolves(s, call);
    var t := Target(s, call);
    if t.Ok? { DoEvolves(t.value, O.SynchronizeStream(StreamKey(t.value, call.stream), O.Success)); }
  }

  lemma CreatedEventEvolves(s: State, call: Call)
    requires Good(s)
    ensures CreatedEvent(s, call) != Fail(MissingKey)
    ensures CreatedEvent(s, call).Ok? ==> Evolves(s, CreatedEvent(s, call).value)
  {
    hide Accepted, P.Run, O.FaultOf;
    var op := O.CreateEvent((call.event, O.Get(s.eventGenerations, call.event) + 1));
    if CreatedEvent(s, call).Ok? {
      AcceptOne(s.ops, op);
      EventKeys(s.ops, op);
    }
  }

  lemma DestroyedEventEvolves(s: State, call: Call)
    requires Good(s)
    ensures DestroyedEvent(s, call) != Fail(MissingKey)
    ensures DestroyedEvent(s, call).Ok? ==> Evolves(s, DestroyedEvent(s, call).value)
  {
    hide Accepted, P.Run, O.FaultOf;
    if DestroyedEvent(s, call).Ok? {
      var op := O.DestroyEvent((call.event, s.events[call.event]));
      AcceptOne(s.ops, op);
      EventKeys(s.ops, op);
    }
  }

  lemma RecordedEvolves(s: State, call: Call)
    requires Good(s)
    ensures Recorded(s, call) != Fail(MissingKey)
    ensures Recorded(s, call).Ok? ==> Evolves(s, Recorded(s, call).value)
  {
    hide Do, Inherited, StreamKey, Accepted;
    InheritedEvolves(s, call);
    var t := Inherited(s, call);
    if t.Ok? && EventKey(t.value, call.event).Ok? {
      DoEvolves(t.value, O.Record(EventKey(t.value, call.event).value, StreamKey(t.value, call.stream)));
    }
  }

  /** The token of a live event is always there to be read. */
  lemma TokenExists(s: State, event: nat)
    requires Good(s) && EventKey(s, event).Ok?
    ensures CurrentToken(s, EventKey(s, event).value).Ok?
  {
    hide Accepted, P.Run;
  }

  lemma QueriedEvolves(s: State, call: Call)
    requires Good(s)
    ensures Queried(s, call) != Fail(MissingKey)
    ensures Queried(s, call).Ok? ==>
              var t := Queried(s, call).value;
              && Evolves(s, t) && EventKey(s, call.event).Ok?
              && CurrentToken(s, EventKey(s, call.event).value).Ok?
              && t.ops == s.ops + [O.Query(CurrentToken(s, EventKey(s, call.event).value).value,
                                           if call.result == 0 then O.Success else O.NotReady)]
  {
    hide Do, CurrentToken, EventKey, Accepted, EventsExist;
    EventKeyFound(s, call.event);
    if EventKey(s, call.event).Ok? {
      TokenExists(s, call.event);
      DoEvolves(s, O.Query(CurrentToken(s, EventKey(s, call.event).value).value,
                           if call.result == 0 then O.Success else O.NotReady));
    }
  }

  lemma EventKeyFound(s: State, event: nat)
    ensures EventKey(s, event) != Fail(MissingKey)
  {
  }

  lemma WaitedEvolves(s: State, call: Call)
    requires Good(s)
    ensures Waited(s, call) != Fail(MissingKey)
    ensures Waited(s, call).Ok? ==> Evolves(s, Waited(s, call).value)
  {
    hide Do, Target, StreamKey, CurrentToken, Accepted, EventsExist;
    TargetEvolves(s, call);
    var t := Target(s, call);
    if t.Ok? && EventKey(t.value, call.event).Ok? {
      var stream := StreamKey(t.value, call.stream);
      DoEvolves(t.value, O.InheritHostRetirements(stream));
      var u := Do(t.value, O.InheritHostRetirements(stream));
      if u.Ok? {
        TokenExists(u.value, call.event);
        DoEvolves(u.value, O.Wait(stream, CurrentToken(u.value, EventKey(t.value, call.event).value).value));
      }
    }
  }

  lemma DeviceEffectEvolves(s: State, call: Call)
    requires Good(s)
    ensures DeviceEffect(s, call) != Fail(MissingKey)
    ensures DeviceEffect(s, call).Ok? ==> Evolves(s, DeviceEffect(s, call).value)
  {
    hide Do, NewStream, Submitted, DestroyedStream, SynchronizedStream, CreatedEvent, DestroyedEvent, Recorded,
         Queried, Waited, Accepted, EventsExist;
    match call.symbol
    case LaunchKernel => SubmittedEvolves(s, call);
    case CopyHtoD => SubmittedEvolves(s, call);
    case CopyDtoH => SubmittedEvolves(s, call);
    case CopyDtoD => SubmittedEvolves(s, call);
    case Memset => SubmittedEvolves(s, call);
    case StreamCreate => NewStreamEvolves(s, call.stream, Explicit);
    case StreamDestroy => DestroyedStreamEvolves(s, call);
    case StreamSynchronize => SynchronizedStreamEvolves(s, call);
    case CtxSynchronize => DoEvolves(s, O.SynchronizeContext(O.Success));
    case CtxSynchronizeV2 => DoEvolves(s, O.SynchronizeContext(O.Success));
    case EventCreate => CreatedEventEvolves(s, call);
    case EventDestroy => DestroyedEventEvolves(s, call);
    case EventRecord => RecordedEvolves(s, call);
    case EventQuery => QueriedEvolves(s, call);
    case EventSynchronize => QueriedEvolves(s, call);
    case StreamWaitEvent => WaitedEvolves(s, call);
    case _ =>
  }

  lemma EffectEvolves(s: State, call: Call)
    requires Good(s)
    ensures Effect(s, call) != Fail(MissingKey)
    ensures Effect(s, call).Ok? ==> Evolves(s, Effect(s, call).value)
  {
    hide DeviceEffect, Accepted, EventsExist;
    RetainedSame(s, call);
    DeviceEffectEvolves(s, call);
  }

  lemma RetainedSame(s: State, call: Call)
    requires Good(s)
    ensures Good(s.(active := Some(call.context)))
  {
    hide Accepted, P.Run;
  }

  // ---- callback spans ----

  /** The row at which each call entered. */
  function Enters(rows: seq<Row>): map<nat, nat> {
    if rows == [] then map[]
    else
      var before := Enters(rows[..|rows| - 1]);
      if rows[|rows| - 1].Enter? then before[rows[|rows| - 1].call.api := |rows| - 1] else before
  }

  function Exits(rows: seq<Row>): map<nat, nat> {
    if rows == [] then map[]
    else
      var before := Exits(rows[..|rows| - 1]);
      if rows[|rows| - 1].Exit? then before[rows[|rows| - 1].call.api := |rows| - 1] else before
  }

  /** The calls that change device or host state. */
  function Mutators(rows: seq<Row>): set<nat> {
    if rows == [] then {}
    else
      var before := Mutators(rows[..|rows| - 1]);
      var last := rows[|rows| - 1];
      if last.Enter? && IsMutation(last.call.symbol) then before + {last.call.api} else before
  }

  /** Of two calls, the later one entered lies after the earlier one or inside it. */
  predicate Fits(enters: map<nat, nat>, exits: map<nat, nat>, a: nat, b: nat)
    requires a in enters && b in enters
  {
    enters[a] < enters[b] && a in exits ==>
      exits[a] < enters[b] || (b in exits && exits[b] < exits[a])
  }

  ghost predicate Nested(enters: map<nat, nat>, exits: map<nat, nat>) {
    forall a, b {:trigger Fits(enters, exits, a, b)} :: a in enters && b in enters ==> Fits(enters, exits, a, b)
  }

  /** A mutating call has exited before the next one enters. */
  ghost predicate MutationsApart(enters: map<nat, nat>, exits: map<nat, nat>, mutators: set<nat>) {
    forall a, b :: a in mutators && b in mutators && a in enters && b in enters && enters[a] < enters[b] ==>
      a in exits && exits[a] < enters[b]
  }

  ghost predicate Logged(s: State, enters: map<nat, nat>, exits: map<nat, nat>, mutators: set<nat>, now: nat) {
    && enters.Keys == s.calls.Keys + s.pending.Keys && s.calls.Keys !! s.pending.Keys && exits.Keys == s.calls.Keys
    && (forall a :: a in enters ==> enters[a] < now)
    && (forall a :: a in exits ==> a in enters && enters[a] < exits[a] < now)
    && (forall a :: a in mutators ==> a in enters)
    && (forall a :: a in s.pending ==> (a in mutators <==> IsMutation(s.pending[a].symbol)))
  }

  ghost predicate Stacked(s: State, enters: map<nat, nat>) {
    && (forall a :: a in s.pending <==> a in s.stack)
    && forall i, j :: 0 <= i < j < |s.stack| ==>
         s.stack[i] in enters && s.stack[j] in enters && enters[s.stack[i]] < enters[s.stack[j]]
  }

  ghost predicate Spans(s: State, enters: map<nat, nat>, exits: map<nat, nat>, mutators: set<nat>, now: nat) {
    && Logged(s, enters, exits, mutators, now) && Stacked(s, enters)
    && Nested(enters, exits) && MutationsApart(enters, exits, mutators)
  }

  lemma EnterLogged(s: State, call: Call, enters: map<nat, nat>, exits: map<nat, nat>, mutators: set<nat>,
                    now: nat, next: nat)
    requires Logged(s, enters, exits, mutators, now) && EnterCall(s, call).Ok? && next == now + 1
    ensures Logged(EnterCall(s, call).value, enters[call.api := now], exits,
                   if IsMutation(call.symbol) then mutators + {call.api} else mutators, next)
  {
    hide IsMutation, MutationPending;
  }

  lemma EnterNested(enters: map<nat, nat>, exits: map<nat, nat>, api: nat, now: nat)
    requires Nested(enters, exits) && api !in enters && api !in exits
    requires (forall a :: a in enters ==> enters[a] < now) && forall a :: a in exits ==> exits[a] < now
    ensures Nested(enters[api := now], exits)
  {
    var later := enters[api := now];
    forall a, b {:trigger Fits(later, exits, a, b)} | a in later && b in later ensures Fits(later, exits, a, b) {
      if a != api && b != api { assert Fits(enters, exits, a, b); }
    }
  }

  lemma EnterSpans(s: State, call: Call, enters: map<nat, nat>, exits: map<nat, nat>, mutators: set<nat>,
                   now: nat, next: nat)
    requires Spans(s, enters, exits, mutators, now) && EnterCall(s, call).Ok? && next == now + 1
    ensures Spans(EnterCall(s, call).value, enters[call.api := now], exits,
                  if IsMutation(call.symbol) then mutators + {call.api} else mutators, next)
  {
    hide Nested, MutationsApart, Stacked, IsMutation, MutationPending;
    EnterNested(enters, exits, call.api, now);
    hide Logged;
    EnterLogged(s, call, enters, exits, mutators, now, next);
    EnterApart(s, call, enters, exits, mutators, now);
    EnterStacked(s, call, enters, exits, mutators, now);
  }

  lemma EnterStacked(s: State, call: Call, enters: map<nat, nat>, exits: map<nat, nat>, mutators: set<nat>, now: nat)
    requires Logged(s, enters, exits, mutators, now) && Stacked(s, enters) && EnterCall(s, call).Ok?
    ensures Stacked(EnterCall(s, call).value, enters[call.api := now])
  {
    var t, later := EnterCall(s, call).value, enters[call.api := now];
    forall i, j | 0 <= i < j < |t.stack|
      ensures t.stack[i] in later && t.stack[j] in later && later[t.stack[i]] < later[t.stack[j]]
    {
      assert s.stack[i] in s.stack;
      if j < |s.stack| { assert s.stack[j] in s.stack; }
    }
  }

  lemma EnterApart(s: State, call: Call, enters: map<nat, nat>, exits: map<nat, nat>, mutators: set<nat>, now: nat)
    requires Logged(s, enters, exits, mutators, now) && MutationsApart(enters, exits, mutators)
    requires EnterCall(s, call).Ok?
    ensures MutationsApart(enters[call.api := now], exits,
                           if IsMutation(call.symbol) then mutators + {call.api} else mutators)
  {
    if IsMutation(call.symbol) {
      assert forall a :: a in s.pending ==> !IsMutation(s.pending[a].symbol);
    }
  }

  /** The last call entered is the one that may exit. */
  lemma TopIsLatest(s: State, enters: map<nat, nat>, exits: map<nat, nat>, mutators: set<nat>, now: nat)
    requires Logged(s, enters, exits, mutators, now) && Stacked(s, enters) && s.stack != []
    ensures var top := s.stack[|s.stack| - 1];
            top in enters && forall b :: b in enters && enters[b] > enters[top] ==> b in exits
  {
    var top := s.stack[|s.stack| - 1];
    assert top in s.stack && top in s.pending;
    forall b | b in s.pending ensures enters[b] <= enters[top] {
      assert b in s.stack;
      var i :| 0 <= i < |s.stack| && s.stack[i] == b;
    }
  }

  lemma PopStacked(s: State, t: State, enters: map<nat, nat>)
    requires Stacked(s, enters) && s.stack != []
    requires t.stack == s.stack[..|s.stack| - 1] && t.pending == s.pending - {s.stack[|s.stack| - 1]}
    ensures Stacked(t, enters)
  {
    var top := s.stack[|s.stack| - 1];
    forall a ensures a in t.pending <==> a in t.stack {
      if a in t.stack {
        var i :| 0 <= i < |t.stack| && t.stack[i] == a;
        assert s.stack[i] == a && s.stack[i] in s.stack;
      }
      if a in t.pending {
        assert a in s.stack;
        var i :| 0 <= i < |s.stack| && s.stack[i] == a;
        assert t.stack[i] == a;
      }
    }
  }

  lemma ExitNested(enters: map<nat, nat>, exits: map<nat, nat>, api: nat, now: nat)
    requires Nested(enters, exits) && api in enters && api !in exits
    requires (forall a :: a in exits ==> exits[a] < now) && forall a :: a in enters ==> enters[a] < now
    requires forall b :: b in enters && enters[b] > enters[api] ==> b in exits
    ensures Nested(enters, exits[api := now])
  {
    var later := exits[api := now];
    forall a, b {:trigger Fits(enters, later, a, b)} | a in enters && b in enters ensures Fits(enters, later, a, b) {
      assert Fits(enters, exits, a, b);
    }
  }

  lemma ExitApart(enters: map<nat, nat>, exits: map<nat, nat>, mutators: set<nat>, api: nat, now: nat)
    requires MutationsApart(enters, exits, mutators) && api !in exits
    ensures MutationsApart(enters, exits[api := now], mutators)
  {
  }

  lemma ExitLogged(s: State, call: Call, enters: map<nat, nat>, exits: map<nat, nat>, mutators: set<nat>,
                   now: nat, next: nat)
    requires Logged(s, enters, exits, mutators, now) && Pop(s, call).Ok? && next == now + 1
    ensures Logged(Pop(s, call).value, enters, exits[call.api := now], mutators, next)
  {
    hide IsMutation, Paired;
  }

  lemma LoggedSame(s: State, t: State, enters: map<nat, nat>, exits: map<nat, nat>, mutators: set<nat>, now: nat)
    requires Spans(s, enters, exits, mutators, now) && SameCalls(s, t)
    ensures Spans(t, enters, exits, mutators, now)
  {
    hide Nested, MutationsApart, IsMutation;
  }

  lemma LoggedLater(s: State, enters: map<nat, nat>, exits: map<nat, nat>, mutators: set<nat>, now: nat, next: nat)
    requires Spans(s, enters, exits, mutators, now) && now <= next
    ensures Spans(s, enters, exits, mutators, next)
  {
    hide Nested, MutationsApart, IsMutation, Stacked;
  }

  lemma PopSpans(s: State, call: Call, enters: map<nat, nat>, exits: map<nat, nat>, mutators: set<nat>,
                 now: nat, next: nat)
    requires Spans(s, enters, exits, mutators, now) && Pop(s, call).Ok? && next == now + 1
    ensures Spans(Pop(s, call).value, enters, exits[call.api := now], mutators, next)
  {
    hide Nested, MutationsApart, Stacked, IsMutation, Paired;
    TopIsLatest(s, enters, exits, mutators, now);
    PopStacked(s, Pop(s, call).value, enters);
    ExitNested(enters, exits, call.api, now);
    ExitApart(enters, exits, mutators, call.api, now);
    ExitLogged(s, call, enters, exits, mutators, now, next);
  }

  lemma ExitEvolves(s: State, call: Call)
    requires Good(s)
    ensures ExitCall(s, call) != Fail(MissingKey)
    ensures ExitCall(s, call).Ok? ==>
              Pop(s, call).Ok? && Evolves(Pop(s, call).value, ExitCall(s, call).value)
  {
    hide Effect, Accepted, Paired;
    if Pop(s, call).Ok? {
      SameEvents(s, Pop(s, call).value);
      EffectEvolves(Pop(s, call).value, call);
    }
  }

  /** Every step keeps the spans, the accepted history and the events. */
  lemma StepKeeps(s: State, row: Row, enters: map<nat, nat>, exits: map<nat, nat>, mutators: set<nat>,
                  now: nat, next: nat)
    requires Good(s) && Spans(s, enters, exits, mutators, now) && next == now + 1
    ensures Step(s, row) != Fail(MissingKey)
    ensures Step(s, row).Ok? ==>
              && Good(Step(s, row).value) && s.ops <= Step(s, row).value.ops
              && Spans(Step(s, row).value, if row.Enter? then enters[row.call.api := now] else enters,
                       if row.Exit? then exits[row.call.api := now] else exits,
                       if row.Enter? && IsMutation(row.call.symbol) then mutators + {row.call.api} else mutators, next)
  {
    hide Do, EnterCall, ExitCall, Accepted, Spans, IsMutation, AllRetired, NoExplicitStream;
    match row
    case Seal(_) =>
      DoEvolves(s, O.SealSubmissions);
      LoggedLater(s, enters, exits, mutators, now, next);
      if Step(s, row).Ok? { LoggedSame(s, Step(s, row).value, enters, exits, mutators, next); }
    case Summary(_, _, _, _, _) =>
      LoggedLater(s, enters, exits, mutators, now, next);
      if Step(s, row).Ok? { LoggedSame(s, Step(s, row).value, enters, exits, mutators, next); }
    case Enter(call) =>
      AdmitSame(s, call);
      var t := AdmitCall(s, call);
      if t.Ok? {
        LoggedSame(s, t.value, enters, exits, mutators, now);
        EnterOnly(t.value, call);
        if EnterCall(t.value, call).Ok? { EnterSpans(t.value, call, enters, exits, mutators, now, next); }
      }
    case Exit(call) =>
      AdmitSame(s, call);
      var t := AdmitCall(s, call);
      if t.Ok? {
        LoggedSame(s, t.value, enters, exits, mutators, now);
        ExitEvolves(t.value, call);
        if ExitCall(t.value, call).Ok? {
          PopSpans(t.value, call, enters, exits, mutators, now, next);
          LoggedSame(Pop(t.value, call).value, ExitCall(t.value, call).value, enters, exits[call.api := now],
                     mutators, next);
        }
      }
  }

  lemma AdmitSame(s: State, call: Call)
    requires Good(s)
    ensures AdmitCall(s, call) != Fail(MissingKey)
    ensures AdmitCall(s, call).Ok? ==> Evolves(s, AdmitCall(s, call).value) && AdmitCall(s, call).value.ops == s.ops
  {
    hide Accepted;
  }

  lemma EnterOnly(s: State, call: Call)
    requires Good(s)
    ensures EnterCall(s, call) != Fail(MissingKey)
    ensures EnterCall(s, call).Ok? ==> Good(EnterCall(s, call).value) && EnterCall(s, call).value.ops == s.ops
  {
    hide Accepted, MutationPending;
  }

  /** In every accepted trace the callbacks nest, no two mutating calls overlap, and the order
      model refused nothing. No run reaches a missing event. */
  lemma {:induction false} TraceNests(rows: seq<Row>)
    ensures Run(rows) != Fail(MissingKey)
    ensures Run(rows).Ok? ==>
              Good(Run(rows).value) && Spans(Run(rows).value, Enters(rows), Exits(rows), Mutators(rows), |rows|)
  {
    if rows != [] {
      var init, row := rows[..|rows| - 1], rows[|rows| - 1];
      TraceNests(init);
      if Run(init).Ok? {
        StepKeeps(Run(init).value, row, Enters(init), Exits(init), Mutators(init), |init|, |rows|);
      }
      hide Step, Good, Spans;
    }
  }

  /** A trace that ended with the terminal row left no call open and no node unretired. */
  ghost predicate Closed(s: State) {
    s.done ==> s.pending == map[] && s.events == map[] && s.kernels > 0 && AllRetired(s)
  }

  lemma {:induction false} TerminalIsClosed(rows: seq<Row>)
    requires Run(rows).Ok?
    ensures Closed(Run(rows).value)
  {
    if rows != [] {
      hide Step, Closed, Good, Spans;
      TraceNests(rows[..|rows| - 1]);
      TerminalIsClosed(rows[..|rows| - 1]);
      StepCloses(Run(rows[..|rows| - 1]).value, rows[|rows| - 1]);
    } else {
      NothingToClose();
    }
  }

  lemma NothingToClose()
    ensures Closed(INITIAL)
  {
  }

  lemma SameRetired(s: State)
    ensures AllRetired(s) ==> AllRetired(s.(done := true))
  {
    hide O.Retired, P.Run;
    var t := s.(done := true);
    assert OrderOf(t) == OrderOf(s);
    if AllRetired(s) {
      forall node | 1 <= node <= |OrderOf(t).nodes| ensures O.Retired(OrderOf(t), node) == Some(true) {
        assert O.Retired(OrderOf(s), node) == Some(true);
      }
    }
  }

  /** Only the terminal row ends a trace, and it tests what Closed says. */
  lemma StepCloses(s: State, row: Row)
    requires Good(s) && Step(s, row).Ok?
    ensures Closed(Step(s, row).value)
  {
    hide AllRetired, NoExplicitStream, OrderOf, Do, Good, ExitCall, AdmitCall, MutationPending, IsMutation;
    match row
    case Seal(_) => DoEvolves(s, O.SealSubmissions);
    case Summary(_, _, _, _, _) => SameRetired(s);
    case Enter(call) => AdmitSame(s, call);
    case Exit(call) =>
      AdmitSame(s, call);
      ExitEvolves(AdmitCall(s, call).value, call);
  }

  // ---- submissions ordered by what the host has seen ----

  lemma AcceptedNodes(ops: seq<O.Op>, op: O.Op)
    requires O.FaultOf(P.Run(ops).0, op).None?
    ensures |P.Run(ops + [op]).0.nodes| == |P.Run(ops).0.nodes| + if Adds(op) then 1 else 0
  {
    hide P.Run, O.FaultOf, O.Apply;
    RunApply(ops, op);
    ApplyEvents(P.Run(ops).0, op);
  }

  /** After a history that leaves a node retired, every node that an accepted continuation
      submits comes after it. */
  lemma {:induction false} LaterNodesFollow(past: seq<O.Op>, ops: seq<O.Op>, node: nat, m: nat)
    requires past <= ops && Accepted(ops) && O.Retired(P.Run(past).0, node) == Some(true)
    requires past != [] && !past[|past| - 1].InheritHostRetirements?
    requires |P.Run(past).0.nodes| < m <= |P.Run(ops).0.nodes|
    ensures O.Precedes(P.Run(ops).0, node, m) == Some(true)
    decreases |ops|
  {
    hide P.Run, O.FaultOf, O.Precedes, O.Retired;
    if past == ops {
    } else {
      var init, op := ops[..|ops| - 1], ops[|ops| - 1];
      assert ops == init + [op];
      AcceptedNodes(init, op);
      if m <= |P.Run(init).0.nodes| {
        LaterNodesFollow(past, init, node, m);
        PrecedesStays(init, op, node, m);
      } else {
        NewNodeFollows(past, init, op, node);
      }
    }
  }

  lemma PrecedesStays(ops: seq<O.Op>, op: O.Op, a: nat, b: nat)
    requires O.Precedes(P.Run(ops).0, a, b) == Some(true)
    ensures O.Precedes(P.Run(ops + [op]).0, a, b) == Some(true)
  {
    hide P.Run, O.Within;
    P.PrecedesIsFinal(ops, [op], a, b);
  }

  lemma NewNodeFollows(past: seq<O.Op>, init: seq<O.Op>, op: O.Op, node: nat)
    requires past <= init && Accepted(init) && O.FaultOf(P.Run(init).0, op).None? && Adds(op)
    requires JustInherited(init, op.stream) && O.Retired(P.Run(past).0, node) == Some(true)
    requires past != [] && !past[|past| - 1].InheritHostRetirements?
    ensures var u := P.Run(init + [op]).0; O.Precedes(u, node, |u.nodes|) == Some(true)
  {
    hide P.Run, O.FaultOf, O.Precedes, O.Retired, Accepted;
    var before, inherit := init[..|init| - 1], O.InheritHostRetirements(op.stream);
    PastBefore(past, init, inherit);
    assert init + [op] == before + [inherit, op];
    AcceptedLast(init);
    P.RetiredPrecedesLater(past, before[|past|..], node, op.stream, op);
  }

  lemma AcceptedLast(ops: seq<O.Op>)
    requires Accepted(ops) && ops != []
    ensures O.FaultOf(P.Run(ops[..|ops| - 1]).0, ops[|ops| - 1]).None?
  {
    hide O.FaultOf, P.Run;
  }

  lemma PastBefore<T>(past: seq<T>, ops: seq<T>, last: T)
    requires past <= ops && ops != [] && ops[|ops| - 1] == last && past != [] && past[|past| - 1] != last
    ensures past <= ops[..|ops| - 1] && ops == ops[..|ops| - 1] + [last]
    ensures past + ops[..|ops| - 1][|past|..] == ops[..|ops| - 1]
  {
    assert |past| < |ops|;
  }

  lemma {:induction false} TraceGrows(rows: seq<Row>, n: nat)
    requires n <= |rows| && Run(rows).Ok?
    ensures Run(rows[..n]).Ok? && Run(rows[..n]).value.ops <= Run(rows).value.ops
    decreases |rows|
  {
    if n == |rows| {
      assert rows[..n] == rows;
    } else {
      var init := rows[..|rows| - 1];
      TraceGrows(init, n);
      assert init[..n] == rows[..n];
      TraceNests(init);
      StepKeeps(Run(init).value, rows[|rows| - 1], Enters(init), Exits(init), Mutators(init), |init|, |rows|);
      hide Step, Good, Spans;
    }
  }

  /** The synchronization ended by row n makes one order call; a node retired by it precedes
      every node submitted by later rows. */
  lemma SynchronizedBefore(rows: seq<Row>, n: nat, op: O.Op, node: nat, m: nat)
    requires n < |rows| && Run(rows).Ok? && Run(rows[..n + 1]).Ok?
    requires Run(rows[..n + 1]).value.ops == StateAt(rows, n).ops + [op]
    requires !Adds(op) && !op.InheritHostRetirements?
    requires O.FaultOf(OrderOf(StateAt(rows, n)), op).None?
    requires O.Retired(P.Run(StateAt(rows, n).ops + [op]).0, node) == Some(true)
    requires |OrderOf(StateAt(rows, n)).nodes| < m <= |OrderOf(Run(rows).value).nodes|
    ensures O.Precedes(OrderOf(Run(rows).value), node, m) == Some(true)
  {
    hide Run, P.Run, O.FaultOf, O.Precedes, O.Retired, Accepted, StateAt;
    TraceGrows(rows, n + 1);
    TraceNests(rows);
    var ops := StateAt(rows, n).ops;
    AcceptedNodes(ops, op);
    LaterNodesFollow(ops + [op], Run(rows).value.ops, node, m);
  }

  /** Row n is the exit of a call and was accepted. */
  predicate ExitAt(rows: seq<Row>, n: nat, symbol: Symbol) {
    n < |rows| && rows[n].Exit? && rows[n].call.symbol == symbol
  }

  /** An accepted mutating exit has its effect on a state with the same tables. */
  lemma ExitEffect(s: State, call: Call) returns (t: State)
    requires Good(s) && Step(s, Exit(call)).Ok? && IsMutation(call.symbol)
    ensures t.ops == s.ops && t.streams == s.streams && t.events == s.events && Good(t)
    ensures Effect(t, call) == Step(s, Exit(call))
  {
    hide Good, Effect, Paired;
    AdmitSame(s, call);
    var admitted := AdmitCall(s, call).value;
    t := Pop(admitted, call).value;
    SameEvents(s, t);
  }

  lemma ExitMakes(rows: seq<Row>, n: nat) returns (t: State)
    requires n < |rows| && Run(rows).Ok? && rows[n].Exit? && IsMutation(rows[n].call.symbol)
    ensures Run(rows[..n + 1]).Ok? && Good(StateAt(rows, n))
    ensures var s := StateAt(rows, n); t.ops == s.ops && t.streams == s.streams && t.events == s.events && Good(t)
    ensures Effect(t, rows[n].call) == Ok(Run(rows[..n + 1]).value)
  {
    hide Good, Effect, IsMutation, Step;
    TraceGrows(rows, n);
    TraceGrows(rows, n + 1);
    assert rows[..n + 1][..n] == rows[..n];
    TraceNests(rows[..n]);
    t := ExitEffect(Run(rows[..n]).value, rows[n].call);
  }

  /** A submission on a stream precedes everything submitted, on any stream, after a successful
      synchronization of that stream. */
  lemma StreamSyncOrders(rows: seq<Row>, n: nat, node: nat, m: nat)
    requires Run(rows).Ok? && ExitAt(rows, n, StreamSynchronize)
    requires rows[n].call.stream in StateAt(rows, n).streams
    requires P.OwnerOf(P.Run(StateAt(rows, n).ops).1, node) == Some(StreamKey(StateAt(rows, n), rows[n].call.stream))
    requires |OrderOf(StateAt(rows, n)).nodes| < m <= |OrderOf(Run(rows).value).nodes|
    ensures O.Precedes(OrderOf(Run(rows).value), node, m) == Some(true)
  {
    hide Run, P.Run, O.FaultOf, O.Precedes, O.Retired, Accepted, EventsExist, StateAt, P.OwnerOf;
    var t := ExitMakes(rows, n);
    var s, call := StateAt(rows, n), rows[n].call;
    SynchronizedStreamEvolves(t, call);
    var op := O.SynchronizeStream(StreamKey(s, call.stream), O.Success);
    LastAccepted(s.ops, op, Run(rows[..n + 1]).value);
    P.StreamSyncRetires(s.ops, StreamKey(s, call.stream), node);
    SynchronizedBefore(rows, n, op, node, m);
  }

  lemma LastAccepted(ops: seq<O.Op>, op: O.Op, t: State)
    requires Good(t) && t.ops == ops + [op]
    ensures O.FaultOf(P.Run(ops).0, op).None?
  {
    assert t.ops[..|t.ops| - 1] == ops;
  }

  /** Every submission precedes everything submitted after a successful synchronization of the
      context, whether or not its stream still exists. */
  lemma ContextSyncOrders(rows: seq<Row>, n: nat, node: nat, m: nat)
    requires Run(rows).Ok? && (ExitAt(rows, n, CtxSynchronize) || ExitAt(rows, n, CtxSynchronizeV2))
    requires O.KnownNode(OrderOf(StateAt(rows, n)), node)
    requires |OrderOf(StateAt(rows, n)).nodes| < m <= |OrderOf(Run(rows).value).nodes|
    ensures O.Precedes(OrderOf(Run(rows).value), node, m) == Some(true)
  {
    hide Run, P.Run, O.FaultOf, O.Precedes, O.Retired, Accepted, EventsExist, StateAt;
    var t := ExitMakes(rows, n);
    var s, call := StateAt(rows, n), rows[n].call;
    var op := O.SynchronizeContext(O.Success);
    DoEvolves(t, op);
    LastAccepted(s.ops, op, Run(rows[..n + 1]).value);
    P.ContextSyncRetiresAll(s.ops, node);
    SynchronizedBefore(rows, n, op, node, m);
  }

  /** The node that made the current record of an event. */
  function CurrentRecorder(s: State, event: nat): Option<nat> {
    var key := EventKey(s, event);
    if key.Fail? then None
    else
      var token := CurrentToken(s, key.value);
      if token.Fail? then None else P.RecorderOf(P.Run(s.ops).1, token.value)
  }

  /** When a query or wait finds an event complete, the event has a current record, and every
      submission that it followed on its stream precedes everything submitted afterwards. */
  lemma EventSuccessOrders(rows: seq<Row>, n: nat, node: nat, m: nat)
    requires Run(rows).Ok? && (ExitAt(rows, n, EventQuery) || ExitAt(rows, n, EventSynchronize))
    requires rows[n].call.result == 0 && O.KnownNode(OrderOf(StateAt(rows, n)), node)
    requires |OrderOf(StateAt(rows, n)).nodes| < m <= |OrderOf(Run(rows).value).nodes|
    ensures var s := StateAt(rows, n);
            var recorder := CurrentRecorder(s, rows[n].call.event);
            && recorder.Some?
            && (node <= recorder.value
                && P.OwnerOf(P.Run(s.ops).1, node) == P.OwnerOf(P.Run(s.ops).1, recorder.value) ==>
                  O.Precedes(OrderOf(Run(rows).value), node, m) == Some(true))
  {
    hide Run, P.Run, O.FaultOf, O.Precedes, O.Retired, Accepted, EventsExist, StateAt, CurrentToken, P.Reaches;
    var t := ExitMakes(rows, n);
    var s, call := StateAt(rows, n), rows[n].call;
    QueriedEvolves(t, call);
    SameToken(s, t, call.event);
    var token := CurrentToken(s, EventKey(s, call.event).value).value;
    var op := O.Query(token, O.Success);
    LastAccepted(s.ops, op, Run(rows[..n + 1]).value);
    P.EventSuccessRetires(s.ops, token, node);
    var recorder, g := P.RecorderOf(P.Run(s.ops).1, token).value, P.Run(s.ops).1;
    if node <= recorder && P.OwnerOf(g, node) == P.OwnerOf(g, recorder) {
      P.StreamOrder(s.ops);
      SynchronizedBefore(rows, n, op, node, m);
    }
  }

  lemma SameToken(s: State, t: State, event: nat)
    requires s.ops == t.ops && s.events == t.events
    ensures EventKey(s, event) == EventKey(t, event)
    ensures EventKey(s, event).Ok? ==>
              CurrentToken(s, EventKey(s, event).value) == CurrentToken(t, EventKey(s, event).value)
  {
    hide P.Run;
  }
}
