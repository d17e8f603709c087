/** The row loop of python/xvram/compat_audit_order.py as an object that owns a DeviceOrder. */
module OrderReplay {
  import opened Options
  import O = OrderModel
  import D = DeviceOrderObject
  import T = OrderTrace
  import TP = OrderTraceProofs
  import S = OrderScript
  import R = OrderRows

  /** The object is now what the trace model says, or the call raised the model's fault. */
  ghost predicate Did(expected: T.Outcome<T.State>, now: T.State, fault: Option<T.Fault>) {
    expected == match fault
                case None => T.Ok(now)
                case Some(f) => T.Fail(f)
  }

  class Witness {
    const order: D.DeviceOrder
    var streams: map<nat, (T.StreamKind, nat)>
    var events: map<nat, nat>
    var streamGenerations: map<nat, nat>
    var eventGenerations: map<nat, nat>
    var pending: map<nat, T.Call>
    var calls: map<nat, (T.Symbol, nat)>
    var threads: set<nat>
    var contexts: set<nat>
    var stack: seq<nat>
    var submissions: nat
    var kernels: nat
    var sealed: bool
    var done: bool
    var active: Option<nat>

    ghost function View(): T.State
      reads this, order
    {
      T.State(order.log, streams, events, streamGenerations, eventGenerations, pending, calls, threads, contexts,
              stack, submissions, kernels, sealed, done, active)
    }

    constructor ()
      ensures order.Valid() && View() == T.INITIAL && fresh(order)
    {
      order := new D.DeviceOrder();
      streams, events, streamGenerations, eventGenerations := map[], map[], map[], map[];
      pending, calls, threads, contexts, stack := map[], map[], {}, {}, [];
      submissions, kernels, sealed, done, active := 0, 0, false, false, None;
    }

    method NewStream(key: nat, kind: T.StreamKind) returns (fault: Option<T.Fault>)
      requires order.Valid()
      modifies order, `streams, `streamGenerations
      ensures order.Valid()
      ensures Did(T.NewStream(old(View()), key, kind), View(), fault)
    {
      hide O.FaultOf, O.Apply, T.P.Run;
      var generation := O.Get(streamGenerations, key) + 1;
      var r := order.CreateStream((key, generation));
      AnswerNotRejected(T.OrderOf(old(View())), O.CreateStream((key, generation)));
      if r.Rejected? { return Some(T.OrderFault(r.fault)); }
      streamGenerations := streamGenerations[key := generation];
      streams := streams[key := (kind, generation)];
      return None;
    }

    /** The stream of a call, created when a per-thread stream is first used. */
    method Target(call: T.Call) returns (fault: Option<T.Fault>)
      requires order.Valid()
      modifies order, `streams, `streamGenerations
      ensures order.Valid()
      ensures Did(T.Target(old(View()), call), View(), fault)
    {
      hide T.NewStream;
      if call.stream == 0 || call.kind == T.NoStream { return Some(T.StreamMissing); }
      if call.stream !in streams {
        if call.kind != T.PerThread || call.stream in streamGenerations { return Some(T.UncreatedStream); }
        fault := NewStream(call.stream, T.PerThread);
        return;
      }
      if streams[call.stream].0 != call.kind { return Some(T.KindChanged); }
      return None;
    }

    function Key(stream: nat): (key: O.Key)
      reads this, order
      ensures key == T.StreamKey(View(), stream)
    {
      if stream in streams then (stream, streams[stream].1) else (stream, 0)
    }

    method Inherited(call: T.Call) returns (fault: Option<T.Fault>)
      requires order.Valid()
      modifies order, `streams, `streamGenerations
      ensures order.Valid()
      ensures Did(T.Inherited(old(View()), call), View(), fault)
    {
      hide T.Target, O.FaultOf, O.Apply, O.Step, T.P.Run;
      fault := Target(call);
      if fault.Some? { return; }
      AnswerNotRejected(T.OrderOf(View()), O.InheritHostRetirements(Key(call.stream)));
      var r := order.InheritHostRetirements(Key(call.stream));
      if r.Rejected? { return Some(T.OrderFault(r.fault)); }
      return None;
    }

    method SubmitOn(key: O.Key) returns (fault: Option<T.Fault>)
      requires order.Valid()
      modifies order
      ensures order.Valid()
      ensures Did(T.Do(old(View()), O.Submit(key)), View(), fault)
    {
      hide O.FaultOf, O.Apply, O.Step, T.P.Run;
      AnswerNotRejected(T.OrderOf(View()), O.Submit(key));
      var r := order.Submit(key);
      if r.Rejected? { return Some(T.OrderFault(r.fault)); }
      return None;
    }

    method Submitted(call: T.Call) returns (fault: Option<T.Fault>)
      requires order.Valid()
      modifies order, `streams, `streamGenerations, `submissions, `kernels
      ensures order.Valid()
      ensures Did(T.Submitted(old(View()), call), View(), fault)
    {
      hide T.Inherited, T.Submitted, T.Do, T.OrderOf, T.StreamKey, Key, View;
      ghost var s := View();
      fault := Inherited(call);
      SubmittedParts(s, call);
      if fault.Some? { return; }
      fault := SubmitOn(Key(call.stream));
      if fault.Some? { return; }
      CountSubmission(call.symbol);
      return None;
    }

    method CountSubmission(symbol: T.Symbol)
      modifies `submissions, `kernels
      ensures View() == old(View()).(submissions := old(View()).submissions + 1,
                                     kernels := old(View()).kernels + if symbol == T.LaunchKernel then 1 else 0)
    {
      submissions := submissions + 1;
      if symbol == T.LaunchKernel { kernels := kernels + 1; }
    }

    method CreateStream(call: T.Call) returns (fault: Option<T.Fault>)
      requires order.Valid()
      modifies order, `streams, `streamGenerations
      ensures order.Valid()
      ensures Did(T.CreatedStream(old(View()), call), View(), fault)
    {
      hide T.NewStream;
      if call.stream == 0 || call.stream in streams || call.kind != T.Explicit || call.flags != 1 {
        return Some(T.StreamCreation);
      }
      fault := NewStream(call.stream, T.Explicit);
    }

    method DestroyStream(call: T.Call) returns (fault: Option<T.Fault>)
      requires order.Valid()
      modifies order, `streams, `streamGenerations
      ensures order.Valid()
      ensures Did(T.DestroyedStream(old(View()), call), View(), fault)
    {
      hide T.Target, O.FaultOf, O.Apply, O.Step, T.P.Run;
      fault := Target(call);
      if fault.Some? { return; }
      AnswerNotRejected(T.OrderOf(View()), O.DestroyStream(Key(call.stream)));
      var r := order.DestroyStream(Key(call.stream));
      if r.Rejected? { return Some(T.OrderFault(r.fault)); }
      streams := streams - {call.stream};
      return None;
    }

    method SynchronizeStream(call: T.Call) returns (fault: Option<T.Fault>)
      requires order.Valid()
      modifies order, `streams, `streamGenerations
      ensures order.Valid()
      ensures Did(T.SynchronizedStream(old(View()), call), View(), fault)
    {
      hide T.Target, O.FaultOf, O.Apply, O.Step, T.P.Run;
      fault := Target(call);
      if fault.Some? { return; }
      AnswerNotRejected(T.OrderOf(View()), O.SynchronizeStream(Key(call.stream), O.Success));
      var r := order.SynchronizeStream(Key(call.stream), O.Success);
      if r.Rejected? { return Some(T.OrderFault(r.fault)); }
      return None;
    }

    method SynchronizeContext() returns (fault: Option<T.Fault>)
      requires order.Valid()
      modifies order
      ensures order.Valid()
      ensures Did(T.Do(old(View()), O.SynchronizeContext(O.Success)), View(), fault)
    {
      hide O.FaultOf, O.Apply, O.Step, T.P.Run;
      AnswerNotRejected(T.OrderOf(View()), O.SynchronizeContext(O.Success));
      var r := order.SynchronizeContext(O.Success);
      if r.Rejected? { return Some(T.OrderFault(r.fault)); }
      return None;
    }

    method CreateEvent(call: T.Call) returns (fault: Option<T.Fault>)
      requires order.Valid()
      modifies order, `events, `eventGenerations
      ensures order.Valid()
      ensures Did(T.CreatedEvent(old(View()), call), View(), fault)
    {
      hide O.FaultOf, O.Apply, O.Step, T.P.Run;
      if call.event == 0 || call.event in events { return Some(T.EventCreation); }
      var generation := O.Get(eventGenerations, call.event) + 1;
      AnswerNotRejected(T.OrderOf(View()), O.CreateEvent((call.event, generation)));
      var r := order.CreateEvent((call.event, generation));
      if r.Rejected? { return Some(T.OrderFault(r.fault)); }
      eventGenerations := eventGenerations[call.event := generation];
      events := events[call.event := generation];
      return None;
    }

    method DestroyEvent(call: T.Call) returns (fault: Option<T.Fault>)
      requires order.Valid()
      modifies order, `events
      ensures order.Valid()
      ensures Did(T.DestroyedEvent(old(View()), call), View(), fault)
    {
      hide O.FaultOf, O.Apply, O.Step, T.P.Run;
      if call.event !in events { return Some(T.UncreatedEvent); }
      AnswerNotRejected(T.OrderOf(View()), O.DestroyEvent((call.event, events[call.event])));
      var r := order.DestroyEvent((call.event, events[call.event]));
      if r.Rejected? { return Some(T.OrderFault(r.fault)); }
      events := events - {call.event};
      return None;
    }

    method Record(call: T.Call) returns (fault: Option<T.Fault>)
      requires order.Valid()
      modifies order, `streams, `streamGenerations
      ensures order.Valid()
      ensures Did(T.Recorded(old(View()), call), View(), fault)
    {
      hide T.Inherited, O.FaultOf, O.Apply, O.Step, T.P.Run;
      fault := Inherited(call);
      if fault.Some? { return; }
      if call.event !in events { return Some(T.UncreatedEvent); }
      AnswerNotRejected(T.OrderOf(View()), O.Record((call.event, events[call.event]), Key(call.stream)));
      var r := order.Record((call.event, events[call.event]), Key(call.stream));
      if r.Rejected? { return Some(T.OrderFault(r.fault)); }
      return None;
    }

    method Query(call: T.Call) returns (fault: Option<T.Fault>)
      requires order.Valid()
      modifies order
      ensures order.Valid()
      ensures Did(T.Queried(old(View()), call), View(), fault)
    {
      hide O.FaultOf, O.Apply, O.Step, T.P.Run;
      if call.event !in events { return Some(T.UncreatedEvent); }
      var key := (call.event, events[call.event]);
      if key !in order.events { return Some(T.MissingKey); }
      var report := if call.result == 0 then O.Success else O.NotReady;
      AnswerNotRejected(T.OrderOf(View()), O.Query(O.Token(key, order.events[key]), report));
      var r := order.Query(O.Token(key, order.events[key]), report);
      if r.Rejected? { return Some(T.OrderFault(r.fault)); }
      return None;
    }

    method Wait(call: T.Call) returns (fault: Option<T.Fault>)
      requires order.Valid()
      modifies order, `streams, `streamGenerations
      ensures order.Valid()
      ensures Did(T.Waited(old(View()), call), View(), fault)
    {
      hide T.Target, O.FaultOf, O.Apply, O.Step, T.P.Run;
      if call.flags != 0 { return Some(T.WaitFlags); }
      fault := Target(call);
      if fault.Some? { return; }
      if call.event !in events { return Some(T.UncreatedEvent); }
      AnswerNotRejected(T.OrderOf(View()), O.InheritHostRetirements(Key(call.stream)));
      var r := order.InheritHostRetirements(Key(call.stream));
      if r.Rejected? { return Some(T.OrderFault(r.fault)); }
      var key := (call.event, events[call.event]);
      if key !in order.events { return Some(T.MissingKey); }
      AnswerNotRejected(T.OrderOf(View()), O.Wait(Key(call.stream), O.Token(key, order.events[key])));
      r := order.Wait(Key(call.stream), O.Token(key, order.events[key]));
      if r.Rejected? { return Some(T.OrderFault(r.fault)); }
      return None;
    }

    method DeviceEffect(call: T.Call) returns (fault: Option<T.Fault>)
      requires order.Valid()
      modifies order, `streams, `streamGenerations, `events, `eventGenerations, `submissions, `kernels
      ensures order.Valid()
      ensures Did(T.DeviceEffect(old(View()), call), View(), fault)
    {
      hide T.Submitted, T.CreatedStream, T.DestroyedStream, T.SynchronizedStream, T.CreatedEvent, T.DestroyedEvent,
           T.Recorded, T.Queried, T.Waited, T.Do, View;
      fault := None;
      match call.symbol
      case LaunchKernel => fault := Submitted(call);
      case CopyHtoD => fault := Submitted(call);
      case CopyDtoH => fault := Submitted(call);
      case CopyDtoD => fault := Submitted(call);
      case Memset => fault := Submitted(call);
      case StreamCreate => fault := CreateStream(call);
      case StreamDestroy => fault := DestroyStream(call);
      case StreamSynchronize => fault := SynchronizeStream(call);
      case CtxSynchronize => fault := SynchronizeContext();
      case CtxSynchronizeV2 => fault := SynchronizeContext();
      case EventCreate => fault := CreateEvent(call);
      case EventDestroy => fault := DestroyEvent(call);
      case EventRecord => fault := Record(call);
      case EventQuery => fault := Query(call);
      case EventSynchronize => fault := Query(call);
      case StreamWaitEvent => fault := Wait(call);
      case _ =>
    }

    method Effect(call: T.Call) returns (fault: Option<T.Fault>)
      requires order.Valid()
      modifies order, `streams, `streamGenerations, `events, `eventGenerations, `submissions, `kernels, `active
      ensures order.Valid()
      ensures Did(T.Effect(old(View()), call), View(), fault)
    {
      hide T.DeviceEffect;
      if call.symbol == T.PrimaryCtxRetain {
        if active.Some? || call.context == 0 { return Some(T.ContextAdmission); }
        active := Some(call.context);
        return None;
      }
      if call.symbol == T.CtxSetCurrent {
        if (active.Some? && call.context != active.value) || submissions != 0 { return Some(T.ContextSwitch); }
        return None;
      }
      if active != Some(call.context) { return Some(T.WrongContext); }
      fault := DeviceEffect(call);
    }

    method AdmitCall(call: T.Call) returns (fault: Option<T.Fault>)
      modifies `threads, `contexts
      ensures Did(T.AdmitCall(old(View()), call), View(), fault)
    {
      if !(1 <= call.api <= T.MAX_API) || !(1 <= call.thread <= T.MAX_ID) || call.context > T.MAX_ID
         || call.stream > T.MAX_ID || call.event > T.MAX_ID || call.flags > 0xffff_ffff || call.result > 0x7fff_ffff {
        return Some(T.Range);
      }
      if call.symbol.Unsupported? { return Some(T.UnsupportedApi); }
      if call.terminalTool {
        if !sealed || call.symbol != T.CtxSynchronize { return Some(T.UnexpectedTerminalTool); }
      } else if sealed {
        return Some(T.LateProducer);
      }
      threads := threads + {call.thread};
      if |threads| != 1 { return Some(T.MultipleProducers); }
      if call.context != 0 {
        contexts := contexts + {call.context};
        if |contexts| != 1 { return Some(T.MultipleContexts); }
      }
      return None;
    }

    method EnterCall(call: T.Call) returns (fault: Option<T.Fault>)
      modifies `pending, `stack
      ensures Did(T.EnterCall(old(View()), call), View(), fault)
    {
      if call.api in calls || call.api in pending || call.result != 0 { return Some(T.InvalidEnter); }
      if T.IsMutation(call.symbol) && exists api :: api in pending && T.IsMutation(pending[api].symbol) {
        return Some(T.OverlappingMutations);
      }
      if |stack| >= T.MAX_STACK { return Some(T.CallbackDepth); }
      pending := pending[call.api := call];
      stack := stack + [call.api];
      return None;
    }

    method Pop(call: T.Call) returns (fault: Option<T.Fault>)
      modifies `stack, `pending, `calls
      ensures Did(T.Pop(old(View()), call), View(), fault)
    {
      hide T.Paired;
      if stack == [] || stack[|stack| - 1] != call.api { return Some(T.StackMismatch); }
      stack := stack[..|stack| - 1];
      if call.api !in pending || !T.Paired(pending[call.api], call) { return Some(T.PairMismatch); }
      pending := pending - {call.api};
      calls := calls[call.api := (call.symbol, call.result)];
      return None;
    }

    method FinishQuery(call: T.Call) returns (fault: Option<T.Fault>)
      ensures Did(T.FinishQuery(View(), call), View(), fault)
    {
      if call.symbol == T.StreamGetGreenCtx && call.flags != 0 { return Some(T.GreenContext); }
      if call.result != 0
         && !(call.symbol == T.CtxGetDevice && call.context == 0 && active.None? && call.result == 201) {
        return Some(T.QueryFailure);
      }
      return None;
    }

    method ExitCall(call: T.Call) returns (fault: Option<T.Fault>)
      requires order.Valid()
      modifies this, order
      ensures order.Valid()
      ensures Did(T.ExitCall(old(View()), call), View(), fault)
    {
      hide T.Effect, T.Pop, T.FinishQuery, View;
      fault := Pop(call);
      if fault.Some? { return; }
      if T.IsQuery(call.symbol) {
        fault := FinishQuery(call);
      } else {
        if call.result != 0 && !(call.symbol == T.EventQuery && call.result == 600) { return Some(T.NativeFailure); }
        fault := Effect(call);
      }
    }

    method Seal(openCalls: nat) returns (fault: Option<T.Fault>)
      requires order.Valid() && !done
      modifies order, `sealed
      ensures order.Valid()
      ensures Did(T.Step(old(View()), T.Seal(openCalls)), View(), fault)
    {
      hide O.FaultOf, O.Apply, O.Step, T.P.Run;
      if sealed || pending != map[] || openCalls != 0 { return Some(T.SealWithProducers); }
      AnswerNotRejected(T.OrderOf(View()), O.SealSubmissions);
      var r := order.SealSubmissions();
      if r.Rejected? { return Some(T.OrderFault(r.fault)); }
      sealed := true;
      return None;
    }

    /** The terminal row: every submission must be retired. */
    method Close(row: T.Row) returns (fault: Option<T.Fault>)
      requires order.Valid() && !done && row.Summary?
      modifies `done
      ensures Did(T.Step(old(View()), row), View(), fault)
    {
      hide O.Retired, T.P.Run;
      if !sealed || pending != map[] || events != map[] || row.errors != 0 || row.openCalls != 0
         || !row.gpuDrained || !row.censusDrained || !row.sealed || kernels == 0
         || exists k :: k in streams && streams[k].0 == T.Explicit {
        return Some(T.TerminalUnproven);
      }
      for node := 1 to |order.nodes| + 1
        invariant forall m | 1 <= m < node :: O.Retired(order.Abs(), m) == Some(true)
      {
        if O.Retired(order.Abs(), node) != Some(true) {
          assert 1 <= node <= |T.OrderOf(View()).nodes| && O.Retired(T.OrderOf(View()), node) != Some(true);
          return Some(T.TerminalUnproven);
        }
      }
      done := true;
      return None;
    }

    method Handle(row: T.Row) returns (fault: Option<T.Fault>)
      requires order.Valid()
      modifies this, order
      ensures order.Valid()
      ensures Did(T.Step(old(View()), row), View(), fault)
    {
      hide T.AdmitCall, T.EnterCall, T.ExitCall, T.Do, T.AllRetired;
      if done { return Some(T.AfterTerminal); }
      match row
      case Seal(openCalls) => fault := Seal(openCalls);
      case Summary(_, _, _, _, _) => fault := Close(row);
      case Enter(call) =>
        fault := AdmitCall(call);
        if fault.None? { fault := EnterCall(call); }
      case Exit(call) =>
        fault := AdmitCall(call);
        if fault.None? { fault := ExitCall(call); }
    }
  }

  /** A submission inherits, submits and is then counted. */
  lemma SubmittedParts(s: T.State, call: T.Call)
    ensures T.Submitted(s, call) ==
            var t := T.Inherited(s, call);
            if t.Fail? then t
            else
              var u := T.Do(t.value, O.Submit(T.StreamKey(t.value, call.stream)));
              if u.Fail? then u
              else T.Ok(u.value.(submissions := u.value.submissions + 1,
                                 kernels := u.value.kernels + if call.symbol == T.LaunchKernel then 1 else 0))
  {
    hide T.Inherited, T.Do, T.StreamKey;
  }

  lemma AnswerNotRejected(s: O.State, op: O.Op)
    ensures match O.FaultOf(s, op)
            case None => !O.Step(s, op).1.Rejected?
            case Some(f) => O.Step(s, op).1 == O.Rejected(f)
  {
    hide O.FaultOf, O.Apply;
  }

  lemma {:induction false} FaultStays(rows: seq<T.Row>, n: nat)
    requires n <= |rows| && T.Run(rows[..n]).Fail?
    ensures T.Run(rows) == T.Run(rows[..n])
    decreases |rows|
  {
    if n == |rows| {
      assert rows[..n] == rows;
    } else {
      assert rows[..|rows| - 1][..n] == rows[..n];
      FaultStays(rows[..|rows| - 1], n);
    }
  }

  /** The row loop. It succeeds exactly on the accepted traces that end with the terminal row,
      and never fails on a missing key. Then every call has returned, callbacks nest, mutating
      calls are disjoint, the order model refused nothing and every submission is retired. */
  method AnalyzeRows(rows: seq<T.Row>) returns (fault: Option<T.Fault>)
    ensures fault.None? <==> T.Run(rows).Ok? && T.Run(rows).value.done
    ensures T.Run(rows).Fail? ==> fault == Some(T.Run(rows).fault)
    ensures fault != Some(T.MissingKey)
    ensures fault.None? ==>
              && TP.Enters(rows).Keys == TP.Exits(rows).Keys
              && TP.Nested(TP.Enters(rows), TP.Exits(rows))
              && TP.MutationsApart(TP.Enters(rows), TP.Exits(rows), TP.Mutators(rows))
              && TP.Accepted(T.Run(rows).value.ops) && T.AllRetired(T.Run(rows).value)
    ensures T.Run(rows).Ok? <==> R.AllFit(rows)
    ensures fault.None? ==>
              var s := T.Run(rows).value;
              && s.ops == S.ScriptOf(rows).ops
              && |T.OrderOf(s).nodes| == S.RowsWhere(rows, S.SubmitsRow)
              && s.submissions == S.RowsWhere(rows, S.WorkRow) && s.kernels == S.RowsWhere(rows, S.LaunchRow)
  {
    hide T.Step, TP.Nested, TP.MutationsApart, TP.Stacked, TP.EventsExist, T.AllRetired, TP.Accepted, S.ScriptOf,
         S.RowsWhere, R.AllFit, S.Keeps;
    TP.TraceNests(rows);
    R.TraceAcceptedExactly(rows);
    if T.Run(rows).Ok? {
      TP.TerminalIsClosed(rows);
      S.SubmissionsExact(rows);
      S.TraceNodes(rows, (0, 0));
    }
    var w := new Witness();
    for n := 0 to |rows|
      invariant w.order.Valid() && fresh(w) && fresh(w.order)
      invariant T.Run(rows[..n]) == T.Ok(w.View())
    {
      assert rows[..n + 1][..n] == rows[..n];
      fault := w.Handle(rows[n]);
      if fault.Some? {
        FaultStays(rows, n + 1);
        return;
      }
    }
    assert rows[..|rows|] == rows;
    if !w.done { return Some(T.TerminalMissing); }
    return None;
  }
}
