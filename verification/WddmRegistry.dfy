/** The registry object and the event loop of python/xvram/compat_audit_wddm_lifetime.py,
    proved against the pure lifetime graph. */
module WddmRegistry {
  import opened Options
  import L = WddmLifetime
  import P = WddmProofs
  import M = WddmMeaning

  class Registry {
    var objects: map<L.Key, L.Item>
    var last: map<nat, L.Key>

    function View(): L.Table
      reads this
    {
      L.Table(objects, last)
    }

    constructor ()
      ensures View() == L.EMPTY
    {
      objects, last := map[], map[];
    }

    /** Starts a generation exactly when it is the next one of its identity and begins strictly
        after the end of the previous one; nothing else changes. */
    method Start(key: L.Key, item: L.Item) returns (fault: Option<L.Fault>)
      modifies this
      ensures fault.None? <==> Follows(old(View()), key, item.start)
      ensures objects == if fault.None? then old(objects)[key := item] else old(objects)
      ensures last == if fault.None? then old(last)[key.id := key] else old(last)
      ensures fault.Some? ==> L.Start(old(View()), key, item) == L.Fail(fault.value)
      ensures forall now: nat :: P.TableInv(old(View()), now) && now <= item.start && item.stop.None? && fault.None? ==>
                P.TableInv(View(), item.start) && key !in old(objects)
    {
      hide P.TableInv;
      forall now: nat | P.TableInv(View(), now) && now <= item.start && item.stop.None?
        ensures L.Start(View(), key, item).Ok? ==>
                  P.TableInv(L.Start(View(), key, item).value, item.start) && key !in objects
      {
        P.StartKeeps(View(), key, item, now);
      }
      var expected := if key.id in last then last[key.id].generation + 1 else 1;
      if key.generation != expected { return Some(L.GenerationGap); }
      if key.id in last {
        var previous := last[key.id];
        if previous !in objects { return Some(L.MissingKey); }
        if objects[previous].stop.None? { return Some(L.ReuseLive); }
        if item.start <= objects[previous].stop.value { return Some(L.AmbiguousReuse); }
      }
      objects := objects[key := item];
      last := last[key.id := key];
      return None;
    }

    /** The lifetime of a key that is live now. */
    method Live(key: L.Key) returns (r: L.Outcome<L.Item>)
      ensures r == L.Live(View(), key)
    {
      if key !in objects || objects[key].stop.Some? { return L.Fail(L.Stale); }
      return L.Ok(objects[key]);
    }

    /** Ends a live lifetime exactly when that leaves it a positive length; nothing else changes. */
    method Stop(key: L.Key, time: nat) returns (fault: Option<L.Fault>)
      modifies this
      ensures fault.None? <==> key in old(objects) && old(objects[key]).stop.None? && old(objects[key]).start < time
      ensures objects == if fault.None? then old(objects)[key := old(objects[key]).(stop := Some(time))]
                         else old(objects)
      ensures last == old(last)
      ensures fault.Some? ==> L.Stop(old(View()), key, time) == L.Fail(fault.value)
      ensures forall now: nat :: P.TableInv(old(View()), now) && now <= time && fault.None? ==> P.TableInv(View(), time)
    {
      hide P.TableInv;
      forall now: nat | P.TableInv(View(), now) && now <= time
        ensures L.Stop(View(), key, time).Ok? ==> P.TableInv(L.Stop(View(), key, time).value, time)
      {
        P.StopKeeps(View(), key, time, now);
      }
      var item := Live(key);
      if item.Fail? { return Some(item.fault); }
      if time <= item.value.start { return Some(L.NonPositiveLifetime); }
      objects := objects[key := item.value.(stop := Some(time))];
      return None;
    }
  }

  /** The key is the next generation of its identity and starts after the previous one ended. */
  ghost predicate Follows(t: L.Table, key: L.Key, time: nat) {
    if key.id !in t.last then key.generation == 1
    else
      && key.generation == t.last[key.id].generation + 1 && t.last[key.id] in t.objects
      && t.objects[t.last[key.id]].stop.Some? && t.objects[t.last[key.id]].stop.value < time
  }

  /** The object is now what the lifetime graph says, or the call raised the graph's fault. */
  ghost predicate Did(expected: L.Outcome<L.Graph>, now: L.Graph, fault: Option<L.Fault>) {
    expected == match fault
                case None => L.Ok(now)
                case Some(f) => L.Fail(f)
  }

  /** The four registries together. */
  class Graph {
    const processes: Registry
    const devices: Registry
    const contexts: Registry
    const queues: Registry
    var lastTime: nat
    var count: nat

    ghost predicate Valid()
      reads this
    {
      && processes != devices && processes != contexts && processes != queues
      && devices != contexts && devices != queues && contexts != queues
    }

    function View(): L.Graph
      reads this, processes, devices, contexts, queues
    {
      L.Graph(processes.View(), devices.View(), contexts.View(), queues.View(), lastTime, count)
    }

    constructor (start: nat)
      ensures Valid() && View() == L.Graph(L.EMPTY, L.EMPTY, L.EMPTY, L.EMPTY, start, 0)
      ensures fresh(processes) && fresh(devices) && fresh(contexts) && fresh(queues)
    {
      processes := new Registry();
      devices := new Registry();
      contexts := new Registry();
      queues := new Registry();
      lastTime, count := start, 0;
    }

    method StartProcess(root: L.Key, e: L.Event) returns (fault: Option<L.Fault>)
      requires Valid() && e.ProcessStart?
      modifies processes
      ensures Did(L.StartProcess(old(View()), root, e), View(), fault)
    {
      if e.process == root {
        if count != 0 || e.parent != L.NONE { return Some(L.RootBirth); }
      } else {
        if e.parent == L.NONE || e.parent == e.process { return Some(L.ForeignProcess); }
        var parent := processes.Live(e.parent);
        if parent.Fail? { return Some(parent.fault); }
      }
      fault := processes.Start(e.process, L.Item(e.process, L.NONE, e.parent, e.time, None));
    }

    method StartDevice(e: L.Event) returns (fault: Option<L.Fault>)
      requires Valid() && e.DeviceStart?
      modifies devices
      ensures Did(L.StartDevice(old(View()), e), View(), fault)
    {
      var owner := processes.Live(e.process);
      if owner.Fail? { return Some(owner.fault); }
      fault := devices.Start(e.device, L.Item(e.process, L.NONE, L.NONE, e.time, None));
    }

    method StopDevice(e: L.Event) returns (fault: Option<L.Fault>)
      requires Valid() && e.DeviceStop?
      modifies devices
      ensures Did(L.StopDevice(old(View()), e), View(), fault)
    {
      var item := devices.Live(e.device);
      if item.Fail? { return Some(item.fault); }
      if item.value.owner != e.process { return Some(L.OwnerMismatch); }
      if L.AnyLiveHeld(contexts.View(), e.device) { return Some(L.LiveContexts); }
      fault := devices.Stop(e.device, e.time);
    }

    method StartContext(e: L.Event) returns (fault: Option<L.Fault>)
      requires Valid() && e.ContextStart?
      modifies contexts
      ensures Did(L.StartContext(old(View()), e), View(), fault)
    {
      var device := devices.Live(e.device);
      if device.Fail? { return Some(device.fault); }
      var owner := processes.Live(device.value.owner);
      if owner.Fail? { return Some(owner.fault); }
      if e.parent != L.NONE {
        var parent := contexts.Live(e.parent);
        if parent.Fail? { return Some(parent.fault); }
        if parent.value.owner != device.value.owner || e.parent == e.context { return Some(L.ParentMismatch); }
      }
      fault := contexts.Start(e.context, L.Item(device.value.owner, e.device, e.parent, e.time, None));
    }

    method StopContext(e: L.Event) returns (fault: Option<L.Fault>)
      requires Valid() && e.ContextStop?
      modifies contexts
      ensures Did(L.StopContext(old(View()), e), View(), fault)
    {
      var device := devices.Live(e.device);
      if device.Fail? { return Some(device.fault); }
      var item := contexts.Live(e.context);
      if item.Fail? { return Some(item.fault); }
      if item.value.holder != e.device || item.value.parent != e.parent { return Some(L.StopIdentity); }
      if L.AnyLiveHeld(queues.View(), e.context) || L.AnyLiveChild(contexts.View(), e.context) {
        return Some(L.LiveChildren);
      }
      fault := contexts.Stop(e.context, e.time);
    }

    method StartQueue(e: L.Event) returns (fault: Option<L.Fault>)
      requires Valid() && e.QueueStart?
      modifies queues
      ensures Did(L.StartQueue(old(View()), e), View(), fault)
    {
      var context := contexts.Live(e.context);
      if context.Fail? { return Some(context.fault); }
      var owner := processes.Live(context.value.owner);
      if owner.Fail? { return Some(owner.fault); }
      if e.parent != L.NONE {
        var parent := queues.Live(e.parent);
        if parent.Fail? { return Some(parent.fault); }
        if parent.value.owner != context.value.owner || e.parent == e.queue { return Some(L.ParentMismatch); }
      }
      fault := queues.Start(e.queue, L.Item(context.value.owner, e.context, e.parent, e.time, None));
    }

    method StopQueue(e: L.Event) returns (fault: Option<L.Fault>)
      requires Valid() && e.QueueStop?
      modifies queues
      ensures Did(L.StopQueue(old(View()), e), View(), fault)
    {
      var context := contexts.Live(e.context);
      if context.Fail? { return Some(context.fault); }
      var item := queues.Live(e.queue);
      if item.Fail? { return Some(item.fault); }
      if item.value.holder != e.context || item.value.parent != e.parent { return Some(L.StopIdentity); }
      if L.AnyLiveChild(queues.View(), e.queue) { return Some(L.LiveChildren); }
      fault := queues.Stop(e.queue, e.time);
    }

    method Dispatch(c: L.Capture, root: L.Key, e: L.Event) returns (fault: Option<L.Fault>)
      requires Valid()
      modifies processes, devices, contexts, queues
      ensures Did(L.Dispatch(old(View()), c, root, e), View(), fault)
    {
      hide L.Start, L.StartProcess, L.StartDevice, L.StopDevice, L.StartContext, L.StopContext,
           L.StartQueue, L.StopQueue;
      match e
      case ProcessStart(_, _, _) => fault := StartProcess(root, e);
      case ProcessStop(time, process, exitCode) =>
        if time > c.reap || exitCode != 0 { return Some(L.ProcessFailure); }
        fault := processes.Stop(process, time);
      case DeviceStart(_, _, _) => fault := StartDevice(e);
      case DeviceStop(_, _, _) => fault := StopDevice(e);
      case ContextStart(_, _, _, _) => fault := StartContext(e);
      case ContextStop(_, _, _, _) => fault := StopContext(e);
      case QueueStart(_, _, _, _) => fault := StartQueue(e);
      case QueueStop(_, _, _, _) => fault := StopQueue(e);
    }

    method Handle(c: L.Capture, root: L.Key, e: L.Event) returns (fault: Option<L.Fault>)
      requires Valid()
      modifies this, processes, devices, contexts, queues
      ensures Did(L.Step(old(View()), c, root, e), View(), fault)
    {
      hide L.Dispatch, L.EventKeyFault;
      if count >= L.MAX_EVENTS { return Some(L.EventCapacity); }
      if !(c.start < e.time < c.end) { return Some(L.TimestampRange); }
      if e.time < lastTime { return Some(L.TimestampInversion); }
      fault := L.EventKeyFault(e);
      if fault.Some? { return; }
      if count == 0 && !(e.ProcessStart? && e.process == root) { return Some(L.RootMissing); }
      fault := Dispatch(c, root, e);
      lastTime, count := e.time, count + 1;
    }
  }

  /** The whole analysis. It succeeds exactly on a clean capture whose run is accepted and ends
      balanced. Then lifetimes nest, and the report counts no late stop exactly when no device
      stop comes later than the stop of its process. */
  method AnalyzeLifetimes(events: seq<L.Event>, c: L.Capture, root: L.Key) returns (r: L.Outcome<L.Report>)
    ensures r.Ok? <==> L.CleanCapture(c, root) && L.Run(events, c, root).Ok?
                       && L.Balanced(L.Run(events, c, root).value, root)
    ensures r.Ok? ==>
              var g := L.Run(events, c, root).value;
              var (p, d, x, q) := (g.processes.objects, g.devices.objects, g.contexts.objects, g.queues.objects);
              && r.value == L.ReportOf(g, c)
              && P.Generations(p) && P.Generations(d) && P.Generations(x) && P.Generations(q)
              && P.EachWithin(x, d) && P.EachWithin(q, x) && P.ChildrenWithin(x) && P.ChildrenWithin(q)
              && (r.value.lateStops == 0 <==> P.NoLateDeviceStop(events))
    ensures r.Ok? <==> L.CleanCapture(c, root) && M.AllFit(events, c, root) && M.AllEnded(M.ChartOf(events, c), root)
    ensures r.Ok? ==> M.Tells(events, c, r.value)
    ensures L.CleanCapture(c, root) && L.Run(events, c, root).Fail? ==> r == L.Fail(L.Run(events, c, root).fault)
    ensures r != L.Fail(L.MissingKey)
  {
    hide L.Step, P.Inv, L.Balanced, L.CleanCapture, L.ReportOf, P.Generations, P.EachWithin, P.ChildrenWithin,
         P.NoLateDeviceStop, P.InOwners, P.Owned, P.Spawned, M.Tells, M.AllEnded, M.ChartOf,
         M.AllFit;
    P.RunKeeps(events, c, root);
    M.RunExact(events, c, root);
    if L.Run(events, c, root).Ok? { M.BalancedExact(events, c, root); }
    if !L.CleanCapture(c, root) { return L.Fail(L.BadCapture); }
    var g := new Graph(c.start);
    for n := 0 to |events|
      invariant g.Valid()
      invariant L.Run(events[..n], c, root) == L.Ok(g.View())
      invariant fresh(g) && fresh(g.processes) && fresh(g.devices) && fresh(g.contexts) && fresh(g.queues)
    {
      assert events[..n + 1][..n] == events[..n];
      var fault := g.Handle(c, root, events[n]);
      if fault.Some? {
        FaultStays(events, n + 1, c, root);
        return L.Fail(fault.value);
      }
    }
    assert events[..|events|] == events;
    if !L.Balanced(g.View(), root) { return L.Fail(L.Incomplete); }
    P.BalancedRunNests(events, c, root);
    P.ProcessNestingExact(events, c, root);
    M.ReportExact(events, c, root);
    r := L.Ok(L.ReportOf(g.View(), c));
  }

  /** A run that fails at some event fails in the same way whatever follows. */
  lemma {:induction false} FaultStays(events: seq<L.Event>, n: nat, c: L.Capture, root: L.Key)
    requires n <= |events| && L.Run(events[..n], c, root).Fail?
    ensures L.Run(events, c, root) == L.Run(events[..n], c, root)
    decreases |events|
  {
    if n == |events| {
      assert events[..n] == events;
    } else {
      assert events[..|events| - 1][..n] == events[..n];
      FaultStays(events[..|events| - 1], n, c, root);
    }
  }
}
