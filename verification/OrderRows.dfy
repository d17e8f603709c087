/** Which rows an order trace accepts, read off the rows before. */
module OrderRows {
  import opened Options
  import O = OrderModel
  import P = OrderProofs
  import H = OrderHistory
  import A = OrderAcceptance
  import opened OrderTrace
  import opened OrderTraceProofs
  import opened OrderScript

  /** The open calls with the innermost last, the calls ever entered, the thread and the context
      seen, the retained context, and whether producers and trace have ended. */
  datatype Log = Log(open: seq<Call>, used: set<nat>, threads: set<nat>, contexts: set<nat>,
                     active: Option<nat>, sealed: bool, done: bool)

  const NOTHING := Log([], {}, {}, {}, None, false, false)

  function Seen(l: Log, call: Call): Log {
    l.(threads := l.threads + {call.thread},
       contexts := if call.context != 0 then l.contexts + {call.context} else l.contexts)
  }

  function Note(l: Log, row: Row): Log {
    match row
    case Enter(call) => Seen(l, call).(open := l.open + [call], used := l.used + {call.api})
    case Exit(call) =>
      Seen(l, call).(open := if l.open == [] then [] else l.open[..|l.open| - 1],
                     active := if call.symbol == PrimaryCtxRetain then Some(call.context) else l.active)
    case Seal(_) => l.(sealed := true)
    case Summary(_, _, _, _, _) => l.(done := true)
  }

  function LogOf(rows: seq<Row>): Log {
    if rows == [] then NOTHING else Note(LogOf(rows[..|rows| - 1]), rows[|rows| - 1])
  }

  // ---- the bookkeeping is the log ----

  ghost predicate SameOpen(stack: seq<nat>, pending: map<nat, Call>, open: seq<Call>) {
    && |stack| == |open|
    && (forall i :: 0 <= i < |open| ==>
          open[i].api == stack[i] && stack[i] in pending && pending[stack[i]] == open[i])
    && (forall i, j :: 0 <= i < j < |stack| ==> stack[i] != stack[j])
    && (forall a :: a in pending ==> a in stack)
  }

  ghost predicate Shows(l: Log, s: State) {
    && SameOpen(s.stack, s.pending, l.open)
    && s.calls.Keys + s.pending.Keys == l.used && s.calls.Keys !! s.pending.Keys
    && s.threads == l.threads && s.contexts == l.contexts && |l.threads| <= 1 && |l.contexts| <= 1
    && s.active == l.active && s.sealed == l.sealed && s.done == l.done
  }

  // ---- which rows are accepted ----

  predicate Admitted(l: Log, call: Call) {
    && 1 <= call.api <= 2_000_000 && 1 <= call.thread <= 100_000 && call.context <= 100_000
    && call.stream <= 100_000 && call.event <= 100_000 && call.flags < 0x1_0000_0000 && call.result < 0x8000_0000
    && !call.symbol.Unsupported?
    && (if l.sealed then call.terminalTool && call.symbol == CtxSynchronize else !call.terminalTool)
    && (forall t :: t in l.threads ==> t == call.thread)
    && (call.context != 0 ==> forall c :: c in l.contexts ==> c == call.context)
  }

  /** The call may enter: it is new, not inside another mutation and not too deep. */
  predicate MayEnter(l: Log, call: Call) {
    && call.api !in l.used && call.result == 0 && |l.open| < 64
    && (IsMutation(call.symbol) ==> forall i :: 0 <= i < |l.open| ==> !IsMutation(l.open[i].symbol))
  }

  /** The exit repeats what the call entered with, but for the result and what it returns. */
  predicate Returns(begin: Call, end: Call) {
    && begin.api == end.api && begin.thread == end.thread && begin.symbol == end.symbol
    && begin.terminalTool == end.terminalTool
    && (end.symbol == PrimaryCtxRetain || begin.context == end.context)
    && (end.symbol == StreamCreate || (begin.stream == end.stream && begin.kind == end.kind))
    && (end.symbol == EventCreate || begin.event == end.event)
    && (end.symbol == StreamGetGreenCtx || begin.flags == end.flags)
  }

  /** The result of a query that the trace accepts. */
  predicate Answers(l: Log, call: Call) {
    && (call.symbol == StreamGetGreenCtx ==> call.flags == 0)
    && (call.result == 0
        || (call.symbol == CtxGetDevice && call.context == 0 && l.active.None? && call.result == 201))
  }

  /** The finished call fits the retained context, its streams and events, and the order model. */
  ghost predicate Succeeds(w: Script, l: Log, call: Call) {
    && (call.result == 0 || (call.symbol == EventQuery && call.result == 600))
    && if call.symbol == PrimaryCtxRetain then l.active.None? && call.context != 0
       else if call.symbol == CtxSetCurrent then
         (l.active.None? || l.active == Some(call.context)) && w.submissions == 0
       else l.active == Some(call.context) && Shaped(w, call) && Accepts(w.ops, OrderScript.Finish(w, call).ops)
  }

  ghost predicate RowFits(w: Script, l: Log, row: Row) {
    !l.done &&
    match row
    case Enter(call) => Admitted(l, call) && MayEnter(l, call)
    case Exit(call) =>
      && Admitted(l, call) && l.open != [] && Returns(l.open[|l.open| - 1], call)
      && (if IsQuery(call.symbol) then Answers(l, call) else Succeeds(w, l, call))
    case Seal(openCalls) =>
      !l.sealed && l.open == [] && openCalls == 0 && Accepts(w.ops, w.ops + [O.SealSubmissions])
    case Summary(gpuDrained, censusDrained, sealed, errors, openCalls) =>
      && l.sealed && l.open == [] && w.events == map[] && errors == 0 && openCalls == 0
      && gpuDrained && censusDrained && sealed && w.kernels > 0
      && (forall k :: k in w.streams ==> w.streams[k].0 != Explicit)
      && forall node: nat :: 1 <= node <= |w.owners| ==> O.Retired(P.Run(w.ops).0, node) == Some(true)
  }

  lemma OnlyOne(a: set<nat>, x: nat)
    requires |a| <= 1
    ensures |a + {x}| == 1 <==> forall y :: y in a ==> y == x
  {
    if a != {} {
      var y :| y in a;
      forall z | z in a ensures z == y {
        assert z != y ==> |a - {y} - {z}| == |a| - 2;
      }
      assert a == {y};
      assert a + {x} == {y, x};
    } else {
      assert a + {x} == {x};
    }
  }

  lemma AdmittedExact(l: Log, s: State, call: Call)
    requires Shows(l, s)
    ensures AdmitCall(s, call).Ok? <==> Admitted(l, call)
    ensures AdmitCall(s, call).Ok? ==>
              var t := AdmitCall(s, call).value;
              Shows(Seen(l, call), t) && t == s.(threads := t.threads, contexts := t.contexts)
  {
    hide SameOpen;
    OnlyOne(s.threads, call.thread);
    OnlyOne(s.contexts, call.context);
  }

  lemma PendingExact(l: Log, s: State)
    requires Shows(l, s)
    ensures MutationPending(s) <==> exists i :: 0 <= i < |l.open| && IsMutation(l.open[i].symbol)
    ensures s.pending == map[] <==> l.open == []
    ensures |s.stack| == |l.open|
  {
    hide IsMutation;
    assert l.open != [] ==> s.stack[0] in s.pending;
    assert l.open == [] ==> s.pending.Keys == {};
    if MutationPending(s) {
      var api :| api in s.pending && IsMutation(s.pending[api].symbol);
      var i :| 0 <= i < |s.stack| && s.stack[i] == api;
      assert IsMutation(l.open[i].symbol);
    }
    if i :| 0 <= i < |l.open| && IsMutation(l.open[i].symbol) {
      assert IsMutation(s.pending[s.stack[i]].symbol);
    }
  }

  lemma UsedMore(calls: set<nat>, pending: map<nat, Call>, used: set<nat>, call: Call)
    requires calls + pending.Keys == used && calls !! pending.Keys && call.api !in calls
    ensures calls + pending[call.api := call].Keys == used + {call.api} && calls !! pending[call.api := call].Keys
  {
  }

  lemma EnterExact(l: Log, s: State, call: Call)
    requires Shows(l, s)
    ensures EnterCall(s, call).Ok? <==> MayEnter(l, call)
    ensures EnterCall(s, call).Ok? ==>
              Shows(l.(open := l.open + [call], used := l.used + {call.api}), EnterCall(s, call).value)
  {
    hide SameOpen, IsMutation, MutationPending;
    PendingExact(l, s);
    if EnterCall(s, call).Ok? {
      OpenMore(s.stack, s.pending, l.open, call);
      UsedMore(s.calls.Keys, s.pending, l.used, call);
    }
  }

  lemma OpenMore(stack: seq<nat>, pending: map<nat, Call>, open: seq<Call>, call: Call)
    requires SameOpen(stack, pending, open) && call.api !in pending
    ensures SameOpen(stack + [call.api], pending[call.api := call], open + [call])
  {
    forall i | 0 <= i < |stack| ensures stack[i] != call.api { assert stack[i] in pending; }
  }

  lemma OpenFewer(stack: seq<nat>, pending: map<nat, Call>, open: seq<Call>)
    requires SameOpen(stack, pending, open) && stack != []
    ensures SameOpen(stack[..|stack| - 1], pending - {stack[|stack| - 1]}, open[..|open| - 1])
  {
    var n := |stack| - 1;
    var api := stack[n];
    forall a | a in pending - {api} ensures a in stack[..n] {
      assert a in stack && a != api;
      assert stack == stack[..n] + [api];
    }
  }

  lemma PairedExact(begin: Call, end: Call)
    ensures begin.api == end.api && Paired(begin, end) <==> Returns(begin, end)
  {
  }

  lemma Innermost(stack: seq<nat>, pending: map<nat, Call>, open: seq<Call>)
    requires SameOpen(stack, pending, open) && stack != []
    ensures var n := |stack| - 1;
            |open| == |stack| && stack[n] in pending && pending[stack[n]] == open[n] && open[n].api == stack[n]
  {
  }

  lemma UsedMoved(calls: map<nat, (Symbol, nat)>, pending: map<nat, Call>, used: set<nat>, api: nat,
                  left: (Symbol, nat))
    requires calls.Keys + pending.Keys == used && calls.Keys !! pending.Keys && api in pending
    ensures calls[api := left].Keys + (pending - {api}).Keys == used
    ensures calls[api := left].Keys !! (pending - {api}).Keys
  {
  }

  lemma PopExact(l: Log, s: State, call: Call)
    requires Shows(l, s)
    ensures Pop(s, call).Ok? <==> l.open != [] && Returns(l.open[|l.open| - 1], call)
    ensures Pop(s, call).Ok? ==>
              var t := Pop(s, call).value;
              && Shows(l.(open := l.open[..|l.open| - 1]), t)
              && t == s.(stack := t.stack, pending := t.pending, calls := t.calls)
  {
    hide SameOpen, Paired, Returns;
    PendingExact(l, s);
    if l.open != [] {
      var begin := l.open[|l.open| - 1];
      Innermost(s.stack, s.pending, l.open);
      PairedExact(begin, call);
      SameApi(begin, call);
      OpenFewer(s.stack, s.pending, l.open);
      UsedMoved(s.calls, s.pending, l.used, begin.api, (call.symbol, call.result));
    }
  }

  lemma SameApi(begin: Call, end: Call)
    ensures Returns(begin, end) ==> begin.api == end.api
  {
  }

  // ---- an effect leaves the bookkeeping alone ----

  predicate SameRest(s: State, t: State) {
    && t.stack == s.stack && t.pending == s.pending && t.calls == s.calls && t.threads == s.threads
    && t.contexts == s.contexts && t.active == s.active && t.sealed == s.sealed && t.done == s.done
  }

  lemma DoRest(s: State, op: O.Op)
    ensures Do(s, op).Ok? ==> SameRest(s, Do(s, op).value)
  {
    hide O.FaultOf, P.Run;
  }

  lemma TargetRest(s: State, call: Call, kind: StreamKind)
    ensures NewStream(s, call.stream, kind).Ok? ==> SameRest(s, NewStream(s, call.stream, kind).value)
    ensures Target(s, call).Ok? ==> SameRest(s, Target(s, call).value)
  {
    hide Do;
    DoRest(s, O.CreateStream((call.stream, O.Get(s.streamGenerations, call.stream) + 1)));
  }

  lemma InheritedRest(s: State, call: Call)
    ensures Inherited(s, call).Ok? ==> SameRest(s, Inherited(s, call).value)
  {
    hide Do, Target, StreamKey;
    TargetRest(s, call, PerThread);
    var t := Target(s, call);
    if t.Ok? { DoRest(t.value, O.InheritHostRetirements(StreamKey(t.value, call.stream))); }
  }

  lemma SubmittingRest(s: State, call: Call)
    ensures Submitted(s, call).Ok? ==> SameRest(s, Submitted(s, call).value)
    ensures Recorded(s, call).Ok? ==> SameRest(s, Recorded(s, call).value)
  {
    hide Do, Inherited, StreamKey, EventKey;
    InheritedRest(s, call);
    var t := Inherited(s, call);
    if t.Ok? {
      var stream := StreamKey(t.value, call.stream);
      DoRest(t.value, O.Submit(stream));
      if EventKey(t.value, call.event).Ok? {
        DoRest(t.value, O.Record(EventKey(t.value, call.event).value, stream));
      }
    }
  }

  lemma WaitedRest(s: State, call: Call)
    ensures Waited(s, call).Ok? ==> SameRest(s, Waited(s, call).value)
  {
    hide Do, Target, StreamKey, EventKey, CurrentToken;
    TargetRest(s, call, PerThread);
    if Waited(s, call).Ok? {
      var t := Target(s, call).value;
      var stream := StreamKey(t, call.stream);
      DoRest(t, O.InheritHostRetirements(stream));
      var u := Do(t, O.InheritHostRetirements(stream)).value;
      DoRest(u, O.Wait(stream, CurrentToken(u, EventKey(t, call.event).value).value));
    }
  }

  lemma StreamCallRest(s: State, call: Call)
    ensures DestroyedStream(s, call).Ok? ==> SameRest(s, DestroyedStream(s, call).value)
    ensures SynchronizedStream(s, call).Ok? ==> SameRest(s, SynchronizedStream(s, call).value)
  {
    hide Do, Target, StreamKey;
    TargetRest(s, call, PerThread);
    var t := Target(s, call);
    if t.Ok? {
      DoRest(t.value, O.DestroyStream(StreamKey(t.value, call.stream)));
      DoRest(t.value, O.SynchronizeStream(StreamKey(t.value, call.stream), O.Success));
    }
  }

  lemma EventCallRest(s: State, call: Call)
    ensures CreatedEvent(s, call).Ok? ==> SameRest(s, CreatedEvent(s, call).value)
    ensures DestroyedEvent(s, call).Ok? ==> SameRest(s, DestroyedEvent(s, call).value)
  {
    hide Do, EventKey;
    DoRest(s, O.CreateEvent((call.event, O.Get(s.eventGenerations, call.event) + 1)));
    if EventKey(s, call.event).Ok? { DoRest(s, O.DestroyEvent(EventKey(s, call.event).value)); }
  }

  lemma QueriedRest(s: State, call: Call)
    ensures Queried(s, call).Ok? ==> SameRest(s, Queried(s, call).value)
  {
    hide Do, EventKey, CurrentToken, SameRest;
    if Queried(s, call).Ok? {
      DoRest(s, O.Query(CurrentToken(s, EventKey(s, call.event).value).value,
                        if call.result == 0 then O.Success else O.NotReady));
    }
  }

  lemma DeviceRest(s: State, call: Call)
    ensures DeviceEffect(s, call).Ok? ==> SameRest(s, DeviceEffect(s, call).value)
  {
    hide Do, Submitted, Recorded, Waited, Queried, NewStream, DestroyedStream, SynchronizedStream, CreatedEvent,
         DestroyedEvent;
    SubmittingRest(s, call);
    WaitedRest(s, call);
    StreamCallRest(s, call);
    EventCallRest(s, call);
    QueriedRest(s, call);
    TargetRest(s, call, Explicit);
    DoRest(s, O.SynchronizeContext(O.Success));
  }

  lemma ShowsRest(l: Log, s: State, t: State)
    requires Shows(l, s) && SameRest(s, t)
    ensures Shows(l, t)
  {
    hide SameOpen;
  }

  // ---- row by row ----

  lemma EffectExactly(w: Script, l: Log, s: State, call: Call)
    requires Good(s) && Follows(w, s) && Shows(l, s) && !IsQuery(call.symbol)
    ensures (call.result == 0 || (call.symbol == EventQuery && call.result == 600)) && Effect(s, call).Ok?
            <==> Succeeds(w, l, call)
  {
    hide Good, Follows, DeviceEffect, Shaped, Accepts, Finish, SameOpen;
    SameOps(w, s);
    DeviceAccepted(w, s, call);
  }

  lemma EffectShows(l: Log, s: State, call: Call)
    requires Shows(l, s) && Effect(s, call).Ok?
    ensures Shows(if call.symbol == PrimaryCtxRetain then l.(active := Some(call.context)) else l,
                  Effect(s, call).value)
  {
    hide DeviceEffect, SameOpen, SameRest;
    DeviceRest(s, call);
    if DeviceEffect(s, call).Ok? { ShowsRest(l, s, DeviceEffect(s, call).value); }
  }

  lemma ExitExactly(w: Script, l: Log, s: State, call: Call)
    requires Good(s) && Follows(w, s) && Shows(l, s)
    ensures ExitCall(s, call).Ok? <==>
            && l.open != [] && Returns(l.open[|l.open| - 1], call)
            && if IsQuery(call.symbol) then Answers(l, call) else Succeeds(w, l, call)
    ensures ExitCall(s, call).Ok? ==>
              Shows(l.(open := l.open[..|l.open| - 1],
                       active := if call.symbol == PrimaryCtxRetain then Some(call.context) else l.active),
                    ExitCall(s, call).value)
  {
    hide Good, Pop, Returns, Effect, Succeeds, SameOpen;
    PopExact(l, s, call);
    if Pop(s, call).Ok? {
      var t := Pop(s, call).value;
      var m := l.(open := l.open[..|l.open| - 1]);
      SameEvents(s, t);
      assert Follows(w, t);
      QueryExactly(m, t, call);
      SucceedsAlike(w, l, m, call);
      if !IsQuery(call.symbol) {
        EffectExactly(w, m, t, call);
        if Effect(t, call).Ok? { EffectShows(m, t, call); }
      }
    }
  }

  lemma SucceedsAlike(w: Script, l: Log, m: Log, call: Call)
    requires m == l.(open := m.open)
    ensures Succeeds(w, l, call) <==> Succeeds(w, m, call)
    ensures Answers(l, call) <==> Answers(m, call)
  {
    hide Shaped, Accepts, Finish;
  }

  lemma QueryExactly(l: Log, s: State, call: Call)
    requires Shows(l, s)
    ensures FinishQuery(s, call).Ok? <==> Answers(l, call)
    ensures FinishQuery(s, call).Ok? ==> FinishQuery(s, call).value == s
  {
    hide SameOpen;
  }

  lemma RetiredExactly(s: State, u: O.State, n: nat)
    requires u == OrderOf(s) && |u.nodes| == n
    ensures AllRetired(s) <==> forall node: nat :: 1 <= node <= n ==> O.Retired(u, node) == Some(true)
  {
    hide P.Run, O.Retired;
  }

  lemma SealExactly(w: Script, l: Log, s: State, row: Row)
    requires Follows(w, s) && Shows(l, s) && row.Seal?
    ensures Step(s, row).Ok? <==> RowFits(w, l, row)
    ensures Step(s, row).Ok? ==> Shows(Note(l, row), Step(s, row).value)
  {
    hide Do, SameOpen, Accepts;
    PendingExact(l, s);
    AcceptsNothing(w.ops);
    SaidAccepted(w.ops, w, s, O.SealSubmissions);
    DoRest(s, O.SealSubmissions);
  }

  lemma SummaryExactly(w: Script, l: Log, s: State, row: Row)
    requires Follows(w, s) && Shows(l, s) && row.Summary? && |OrderOf(s).nodes| == |w.owners|
    ensures Step(s, row).Ok? <==> RowFits(w, l, row)
    ensures Step(s, row).Ok? ==> Shows(Note(l, row), Step(s, row).value)
  {
    PendingExact(l, s);
    SameOps(w, s);
    RetiredExactly(s, P.Run(w.ops).0, |w.owners|);
    hide SameOpen, AllRetired, O.Retired, P.Run, OrderOf;
  }

  lemma RowExactly(w: Script, l: Log, s: State, row: Row)
    requires Good(s) && Follows(w, s) && Shows(l, s) && |OrderOf(s).nodes| == |w.owners|
    ensures Step(s, row).Ok? <==> RowFits(w, l, row)
    ensures Step(s, row).Ok? ==> Shows(Note(l, row), Step(s, row).value)
  {
    match row
    case Seal(_) => SealExactly(w, l, s, row);
    case Summary(_, _, _, _, _) => SummaryExactly(w, l, s, row);
    case Enter(call) => EnterRowExactly(w, l, s, call);
    case Exit(call) => ExitRowExactly(w, l, s, call);
  }

  lemma EnterRowExactly(w: Script, l: Log, s: State, call: Call)
    requires Shows(l, s)
    ensures Step(s, Enter(call)).Ok? <==> RowFits(w, l, Enter(call))
    ensures Step(s, Enter(call)).Ok? ==> Shows(Note(l, Enter(call)), Step(s, Enter(call)).value)
  {
    hide SameOpen, AdmitCall, Admitted, EnterCall, MayEnter;
    AdmittedExact(l, s, call);
    if AdmitCall(s, call).Ok? {
      EnterExact(Seen(l, call), AdmitCall(s, call).value, call);
      EntersAlike(l, call);
    }
  }

  lemma EntersAlike(l: Log, call: Call)
    ensures MayEnter(Seen(l, call), call) <==> MayEnter(l, call)
  {
  }

  lemma ExitRowExactly(w: Script, l: Log, s: State, call: Call)
    requires Good(s) && Follows(w, s) && Shows(l, s)
    ensures Step(s, Exit(call)).Ok? <==> RowFits(w, l, Exit(call))
    ensures Step(s, Exit(call)).Ok? ==> Shows(Note(l, Exit(call)), Step(s, Exit(call)).value)
  {
    hide Good, SameOpen, AdmitCall, Admitted, ExitCall, Succeeds, Answers, Returns;
    AdmittedExact(l, s, call);
    if AdmitCall(s, call).Ok? {
      var t := AdmitCall(s, call).value;
      SameEvents(s, t);
      ExitExactly(w, Seen(l, call), t, call);
      FinishesAlike(w, l, call);
    }
  }

  lemma FinishesAlike(w: Script, l: Log, call: Call)
    ensures Succeeds(w, Seen(l, call), call) <==> Succeeds(w, l, call)
    ensures Answers(Seen(l, call), call) <==> Answers(l, call)
  {
    hide Shaped, Accepts, Finish;
  }

  /** The bookkeeping of an accepted trace is what its rows say. */
  lemma {:induction false} LogExact(rows: seq<Row>)
    requires Run(rows).Ok?
    ensures Shows(LogOf(rows), Run(rows).value)
  {
    hide Step, Shows, Note, Good, Keeps, RowFits, Follows;
    if rows == [] {
      NothingShows();
    } else {
      var n := |rows| - 1;
      LogExact(rows[..n]);
      TraceNodes(rows[..n], (0, 0));
      ScriptExact(rows[..n]);
      RowExactly(ScriptOf(rows[..n]), LogOf(rows[..n]), Run(rows[..n]).value, rows[n]);
    }
  }

  lemma NothingShows()
    ensures Shows(NOTHING, INITIAL)
  {
  }

  /** A row is accepted exactly when it fits the rows before: one thread and one context, calls
      properly nested with no overlapping mutations, streams and events that exist, and every
      call that it makes accepted by the order model. */
  lemma RowAcceptedExactly(rows: seq<Row>, row: Row)
    requires Run(rows).Ok?
    ensures Run(rows + [row]).Ok? <==> RowFits(ScriptOf(rows), LogOf(rows), row)
  {
    hide Step, Shows, Good, Keeps, RowFits, Follows, ScriptOf, LogOf;
    assert (rows + [row])[..|rows|] == rows;
    LogExact(rows);
    TraceNodes(rows, (0, 0));
    ScriptExact(rows);
    RowExactly(ScriptOf(rows), LogOf(rows), Run(rows).value, row);
  }

  ghost predicate AllFit(rows: seq<Row>) {
    forall n :: 0 <= n < |rows| ==> RowFits(ScriptOf(rows[..n]), LogOf(rows[..n]), rows[n])
  }

  /** A trace is accepted exactly when each of its rows fits the rows before. */
  lemma {:induction false} TraceAcceptedExactly(rows: seq<Row>)
    ensures Run(rows).Ok? <==> AllFit(rows)
  {
    hide RowFits, ScriptOf, LogOf, Step;
    if rows != [] {
      var n := |rows| - 1;
      var init := rows[..n];
      assert rows == init + [rows[n]];
      TraceAcceptedExactly(init);
      forall m | 0 <= m < n ensures rows[..m] == init[..m] && rows[m] == init[m] {
      }
      if Run(init).Ok? { RowAcceptedExactly(init, rows[n]); }
      if AllFit(rows) {
        forall m | 0 <= m < n ensures RowFits(ScriptOf(init[..m]), LogOf(init[..m]), init[m]) {
          assert RowFits(ScriptOf(rows[..m]), LogOf(rows[..m]), rows[m]);
        }
      }
    }
  }
}
