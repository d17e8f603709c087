/** The resource lifetime graph of python/xvram/compat_audit_wddm_lifetime.py. */
module WddmLifetime {
  import opened Options

  datatype Key = Key(id: nat, generation: nat)

  const NONE := Key(0, 0)

  /** One lifetime. `holder` is the device of a context and the context of a queue; processes
      and devices have none. `owner` is the process of a resource, and a process owns itself. */
  datatype Item = Item(owner: Key, holder: Key, parent: Key, start: nat, stop: Option<nat>)

  datatype Table = Table(objects: map<Key, Item>, last: map<nat, Key>)

  datatype Capture = Capture(start: nat, end: nat, reap: nat, clockFrequency: nat, eventsLost: nat,
                             logBuffersLost: nat, realtimeBuffersLost: nat, decoderErrors: nat, etlClosed: bool,
                             controllerReaped: bool, processTreeDrained: bool, traceTruncated: bool,
                             timedOut: bool, workerExitCode: nat)

  const MAX_EVENTS := 1_000_000
  const MAX_IDS := 100_000
  const MAX_FREQUENCY := 1_000_000_000_000

  datatype Event =
    | ProcessStart(time: nat, process: Key, parent: Key)
    | ProcessStop(time: nat, process: Key, exitCode: nat)
    | DeviceStart(time: nat, process: Key, device: Key)
    | DeviceStop(time: nat, process: Key, device: Key)
    | ContextStart(time: nat, device: Key, context: Key, parent: Key)
    | ContextStop(time: nat, device: Key, context: Key, parent: Key)
    | QueueStart(time: nat, context: Key, queue: Key, parent: Key)
    | QueueStop(time: nat, context: Key, queue: Key, parent: Key)

  /** `MissingKey` is the Python KeyError of reading an absent table entry. */
  datatype Fault = MissingKey | BadCapture | EventCapacity | KeyRange | PartialNullKey | GenerationGap
                 | ReuseLive | AmbiguousReuse | Stale | NonPositiveLifetime | TimestampRange
                 | TimestampInversion | RootMissing | RootBirth | ForeignProcess | ProcessFailure
                 | OwnerMismatch | LiveContexts | ParentMismatch | StopIdentity | LiveChildren | Incomplete

  datatype Outcome<+T> = Ok(value: T) | Fail(fault: Fault)

  datatype Graph = Graph(processes: Table, devices: Table, contexts: Table, queues: Table,
                         lastTime: nat, count: nat)

  const EMPTY := Table(map[], map[])

  function Initial(c: Capture): Graph {
    Graph(EMPTY, EMPTY, EMPTY, EMPTY, c.start, 0)
  }

  // ---- one registry ----

  function Start(t: Table, key: Key, item: Item): Outcome<Table> {
    var expected := if key.id in t.last then t.last[key.id].generation + 1 else 1;
    if key.generation != expected then Fail(GenerationGap)
    else if key.id in t.last && t.last[key.id] !in t.objects then Fail(MissingKey)
    else if key.id in t.last && t.objects[t.last[key.id]].stop.None? then Fail(ReuseLive)
    else if key.id in t.last && item.start <= t.objects[t.last[key.id]].stop.value then Fail(AmbiguousReuse)
    else Ok(Table(t.objects[key := item], t.last[key.id := key]))
  }

  function Live(t: Table, key: Key): Outcome<Item> {
    if key in t.objects && t.objects[key].stop.None? then Ok(t.objects[key]) else Fail(Stale)
  }

  function Stop(t: Table, key: Key, time: nat): Outcome<Table> {
    var item := Live(t, key);
    if item.Fail? then Fail(item.fault)
    else if time <= item.value.start then Fail(NonPositiveLifetime)
    else Ok(t.(objects := t.objects[key := item.value.(stop := Some(time))]))
  }

  predicate AnyLive(t: Table) {
    exists k :: k in t.objects && t.objects[k].stop.None?
  }

  predicate AnyLiveHeld(t: Table, holder: Key) {
    exists k :: k in t.objects && t.objects[k].stop.None? && t.objects[k].holder == holder
  }

  predicate AnyLiveChild(t: Table, parent: Key) {
    exists k :: k in t.objects && t.objects[k].stop.None? && t.objects[k].parent == parent
  }

  // ---- one event ----

  function KeyFault(k: Key): Option<Fault> {
    if 1 <= k.id <= MAX_IDS && 1 <= k.generation <= MAX_IDS then None else Some(KeyRange)
  }

  function ParentFault(k: Key): Option<Fault> {
    if k.id > MAX_IDS || k.generation > MAX_IDS then Some(KeyRange)
    else if (k.id == 0) != (k.generation == 0) then Some(PartialNullKey) else None
  }

  function Both(a: Option<Fault>, b: Option<Fault>): Option<Fault> {
    if a.Some? then a else b
  }

  function EventKeyFault(e: Event): Option<Fault> {
    match e
    case ProcessStart(_, process, parent) => Both(KeyFault(process), ParentFault(parent))
    case ProcessStop(_, process, _) => KeyFault(process)
    case DeviceStart(_, process, device) => Both(KeyFault(process), KeyFault(device))
    case DeviceStop(_, process, device) => Both(KeyFault(process), KeyFault(device))
    case ContextStart(_, device, context, parent) =>
      Both(Both(KeyFault(context), KeyFault(device)), ParentFault(parent))
    case ContextStop(_, device, context, parent) =>
      Both(Both(KeyFault(context), KeyFault(device)), ParentFault(parent))
    case QueueStart(_, context, queue, parent) =>
      Both(Both(KeyFault(queue), KeyFault(context)), ParentFault(parent))
    case QueueStop(_, context, queue, parent) =>
      Both(Both(KeyFault(queue), KeyFault(context)), ParentFault(parent))
  }

  /** The tests before a child starts under an optional live parent of the same owner. */
  function ParentTest(t: Table, key: Key, parent: Key, owner: Key): Option<Fault> {
    if parent == NONE then None
    else if Live(t, parent).Fail? then Some(Stale)
    else if Live(t, parent).value.owner != owner || parent == key then Some(ParentMismatch)
    else None
  }

  function StartProcess(g: Graph, root: Key, e: Event): Outcome<Graph>
    requires e.ProcessStart?
  {
    var fault :=
      if e.process == root then (if g.count != 0 || e.parent != NONE then Some(RootBirth) else None)
      else if e.parent == NONE || e.parent == e.process then Some(ForeignProcess)
      else if Live(g.processes, e.parent).Fail? then Some(Stale) else None;
    if fault.Some? then Fail(fault.value)
    else
      var t := Start(g.processes, e.process, Item(e.process, NONE, e.parent, e.time, None));
      if t.Fail? then Fail(t.fault) else Ok(g.(processes := t.value))
  }

  function StartDevice(g: Graph, e: Event): Outcome<Graph>
    requires e.DeviceStart?
  {
    if Live(g.processes, e.process).Fail? then Fail(Stale)
    else
      var t := Start(g.devices, e.device, Item(e.process, NONE, NONE, e.time, None));
      if t.Fail? then Fail(t.fault) else Ok(g.(devices := t.value))
  }

  function StartContext(g: Graph, e: Event): Outcome<Graph>
    requires e.ContextStart?
  {
    var device := Live(g.devices, e.device);
    if device.Fail? then Fail(Stale)
    else if Live(g.processes, device.value.owner).Fail? then Fail(Stale)
    else
      var fault := ParentTest(g.contexts, e.context, e.parent, device.value.owner);
      if fault.Some? then Fail(fault.value)
      else
        var t := Start(g.contexts, e.context, Item(device.value.owner, e.device, e.parent, e.time, None));
        if t.Fail? then Fail(t.fault) else Ok(g.(contexts := t.value))
  }

  function StartQueue(g: Graph, e: Event): Outcome<Graph>
    requires e.QueueStart?
  {
    var context := Live(g.contexts, e.context);
    if context.Fail? then Fail(Stale)
    else if Live(g.processes, context.value.owner).Fail? then Fail(Stale)
    else
      var fault := ParentTest(g.queues, e.queue, e.parent, context.value.owner);
      if fault.Some? then Fail(fault.value)
      else
        var t := Start(g.queues, e.queue, Item(context.value.owner, e.context, e.parent, e.time, None));
        if t.Fail? then Fail(t.fault) else Ok(g.(queues := t.value))
  }

  function StopContext(g: Graph, e: Event): Outcome<Graph>
    requires e.ContextStop?
  {
    if Live(g.devices, e.device).Fail? then Fail(Stale)
    else
      var item := Live(g.contexts, e.context);
      if item.Fail? then Fail(Stale)
      else if item.value.holder != e.device || item.value.parent != e.parent then Fail(StopIdentity)
      else if AnyLiveHeld(g.queues, e.context) || AnyLiveChild(g.contexts, e.context) then Fail(LiveChildren)
      else
        var t := Stop(g.contexts, e.context, e.time);
        if t.Fail? then Fail(t.fault) else Ok(g.(contexts := t.value))
  }

  function StopQueue(g: Graph, e: Event): Outcome<Graph>
    requires e.QueueStop?
  {
    if Live(g.contexts, e.context).Fail? then Fail(Stale)
    else
      var item := Live(g.queues, e.queue);
      if item.Fail? then Fail(Stale)
      else if item.value.holder != e.context || item.value.parent != e.parent then Fail(StopIdentity)
      else if AnyLiveChild(g.queues, e.queue) then Fail(LiveChildren)
      else
        var t := Stop(g.queues, e.queue, e.time);
        if t.Fail? then Fail(t.fault) else Ok(g.(queues := t.value))
  }

  function StopDevice(g: Graph, e: Event): Outcome<Graph>
    requires e.DeviceStop?
  {
    var item := Live(g.devices, e.device);
    if item.Fail? then Fail(Stale)
    else if item.value.owner != e.process then Fail(OwnerMismatch)
    else if AnyLiveHeld(g.contexts, e.device) then Fail(LiveContexts)
    else
      var t := Stop(g.devices, e.device, e.time);
      if t.Fail? then Fail(t.fault) else Ok(g.(devices := t.value))
  }

  function Dispatch(g: Graph, c: Capture, root: Key, e: Event): Outcome<Graph> {
    match e
    case ProcessStart(_, _, _) => StartProcess(g, root, e)
    case ProcessStop(time, process, exitCode) =>
      if time > c.reap || exitCode != 0 then Fail(ProcessFailure)
      else
        var t := Stop(g.processes, process, time);
        if t.Fail? then Fail(t.fault) else Ok(g.(processes := t.value))
    case DeviceStart(_, _, _) => StartDevice(g, e)
    case DeviceStop(_, _, _) => StopDevice(g, e)
    case ContextStart(_, _, _, _) => StartContext(g, e)
    case ContextStop(_, _, _, _) => StopContext(g, e)
    case QueueStart(_, _, _, _) => StartQueue(g, e)
    case QueueStop(_, _, _, _) => StopQueue(g, e)
  }

  function Step(g: Graph, c: Capture, root: Key, e: Event): Outcome<Graph> {
    if g.count >= MAX_EVENTS then Fail(EventCapacity)
    else if !(c.start < e.time < c.end) then Fail(TimestampRange)
    else if e.time < g.lastTime then Fail(TimestampInversion)
    else if EventKeyFault(e).Some? then Fail(EventKeyFault(e).value)
    else if g.count == 0 && !(e.ProcessStart? && e.process == root) then Fail(RootMissing)
    else
      var r := Dispatch(g, c, root, e);
      if r.Ok? then Ok(r.value.(lastTime := e.time, count := g.count + 1)) else r
  }

  function Run(events: seq<Event>, c: Capture, root: Key): Outcome<Graph> {
    if events == [] then Ok(Initial(c))
    else
      var before := Run(events[..|events| - 1], c, root);
      if before.Ok? then Step(before.value, c, root, events[|events| - 1]) else before
  }

  /** The final test: the root and one resource of each kind were seen, and nothing is live. */
  predicate Balanced(g: Graph, root: Key) {
    && g.count > 0 && root in g.processes.objects
    && g.devices.objects != map[] && g.contexts.objects != map[] && g.queues.objects != map[]
    && !AnyLive(g.processes) && !AnyLive(g.devices) && !AnyLive(g.contexts) && !AnyLive(g.queues)
  }

  // ---- the capture and the report ----

  /** The capture closed cleanly, lost nothing and encloses the reap. */
  predicate CleanCapture(c: Capture, root: Key) {
    && KeyFault(root).None? && c.start < c.reap < c.end && 1 <= c.clockFrequency <= MAX_FREQUENCY
    && c.eventsLost == 0 && c.logBuffersLost == 0 && c.realtimeBuffersLost == 0 && c.decoderErrors == 0
    && c.etlClosed && c.controllerReaped && c.processTreeDrained && !c.traceTruncated && !c.timedOut
    && c.workerExitCode == 0
  }

  /** The resource stopped after the process that owns it. */
  predicate OutlivesOwner(item: Item, processes: map<Key, Item>) {
    && item.owner in processes && item.stop.Some? && processes[item.owner].stop.Some?
    && item.stop.value > processes[item.owner].stop.value
  }

  function Late(t: map<Key, Item>, processes: map<Key, Item>): set<Key> {
    set k | k in t && OutlivesOwner(t[k], processes)
  }

  function StoppedAfter(t: map<Key, Item>, time: nat): set<Key> {
    set k | k in t && t[k].stop.Some? && t[k].stop.value > time
  }

  datatype Report = Report(events: nat, processes: nat, devices: nat, contexts: nat, queues: nat,
                           lateStops: nat, stopsAfterReap: nat)

  function ReportOf(g: Graph, c: Capture): Report {
    var (p, d, x, q) := (g.processes.objects, g.devices.objects, g.contexts.objects, g.queues.objects);
    Report(g.count, |p|, |d|, |x|, |q|, |Late(d, p)| + |Late(x, p)| + |Late(q, p)|,
           |StoppedAfter(d, c.reap)| + |StoppedAfter(x, c.reap)| + |StoppedAfter(q, c.reap)|)
  }
}
