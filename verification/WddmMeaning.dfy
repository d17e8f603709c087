/** Which events the lifetime graph accepts, what lifetimes they make and what the report
    counts, read off the events. */
module WddmMeaning {
  import opened Options
  import opened WddmLifetime
  import opened WddmProofs

  /** The lifetimes that the events start and stop, the time of the last event, and how many
      there were. */
  datatype Chart = Chart(processes: map<Key, Item>, devices: map<Key, Item>, contexts: map<Key, Item>,
                         queues: map<Key, Item>, now: nat, count: nat)

  function Ends(t: map<Key, Item>, key: Key, time: nat): map<Key, Item> {
    if key in t then t[key := t[key].(stop := Some(time))] else t
  }

  function OwnerIn(t: map<Key, Item>, key: Key): Key {
    if key in t then t[key].owner else NONE
  }

  /** A context belongs to the process of its device, a queue to that of its context. */
  function Note(v: Chart, e: Event): Chart {
    var w := v.(now := e.time, count := v.count + 1);
    match e
    case ProcessStart(time, process, parent) =>
      w.(processes := w.processes[process := Item(process, NONE, parent, time, None)])
    case ProcessStop(time, process, _) => w.(processes := Ends(w.processes, process, time))
    case DeviceStart(time, process, device) =>
      w.(devices := w.devices[device := Item(process, NONE, NONE, time, None)])
    case DeviceStop(time, _, device) => w.(devices := Ends(w.devices, device, time))
    case ContextStart(time, device, context, parent) =>
      w.(contexts := w.contexts[context := Item(OwnerIn(w.devices, device), device, parent, time, None)])
    case ContextStop(time, _, context, _) => w.(contexts := Ends(w.contexts, context, time))
    case QueueStart(time, context, queue, parent) =>
      w.(queues := w.queues[queue := Item(OwnerIn(w.contexts, context), context, parent, time, None)])
    case QueueStop(time, _, queue, _) => w.(queues := Ends(w.queues, queue, time))
  }

  function ChartOf(events: seq<Event>, c: Capture): Chart {
    if events == [] then Chart(map[], map[], map[], map[], c.start, 0)
    else Note(ChartOf(events[..|events| - 1], c), events[|events| - 1])
  }

  ghost predicate Shows(w: Chart, g: Graph) {
    && g.processes.objects == w.processes && g.devices.objects == w.devices
    && g.contexts.objects == w.contexts && g.queues.objects == w.queues && g.lastTime == w.now
    && g.count == w.count && (w.processes == map[] <==> w.count == 0)
    && (w.count == 0 ==> w.devices == map[] && w.contexts == map[] && w.queues == map[])
  }

  // ---- which events are accepted ----

  predicate Named(k: Key) {
    1 <= k.id <= 100_000 && 1 <= k.generation <= 100_000
  }

  predicate MaybeNamed(k: Key) {
    k == NONE || Named(k)
  }

  predicate IsLive(t: map<Key, Item>, key: Key) {
    key in t && t[key].stop.None?
  }

  /** The key is the next generation of its identity, and all earlier ones ended before. */
  ghost predicate IsNext(t: map<Key, Item>, key: Key, time: nat) {
    && (key.generation == 1 || (key.generation > 1 && Key(key.id, key.generation - 1) in t))
    && forall k :: k in t && k.id == key.id ==>
         k.generation < key.generation && t[k].stop.Some? && t[k].stop.value < time
  }

  /** A parent, where there is one, is another live entry of the same process. */
  predicate FitsUnder(t: map<Key, Item>, key: Key, parent: Key, owner: Key) {
    parent == NONE || (parent != key && IsLive(t, parent) && t[parent].owner == owner)
  }

  predicate EndsAfter(t: map<Key, Item>, key: Key, time: nat) {
    IsLive(t, key) && t[key].start < time
  }

  ghost predicate Fits(w: Chart, c: Capture, root: Key, e: Event) {
    && w.count < 1_000_000 && c.start < e.time < c.end && w.now <= e.time &&
    match e
    case ProcessStart(time, process, parent) =>
      && Named(process) && MaybeNamed(parent) && IsNext(w.processes, process, time)
      && (if process == root then parent == NONE && w.processes == map[]
          else parent != NONE && parent != process && IsLive(w.processes, parent))
    case ProcessStop(time, process, exitCode) =>
      Named(process) && EndsAfter(w.processes, process, time) && time <= c.reap && exitCode == 0
    case DeviceStart(time, process, device) =>
      Named(process) && Named(device) && IsLive(w.processes, process) && IsNext(w.devices, device, time)
    case DeviceStop(time, process, device) =>
      && Named(process) && Named(device) && EndsAfter(w.devices, device, time)
      && w.devices[device].owner == process
      && (forall k :: IsLive(w.contexts, k) ==> w.contexts[k].holder != device)
    case ContextStart(time, device, context, parent) =>
      && Named(context) && Named(device) && MaybeNamed(parent) && IsLive(w.devices, device)
      && IsLive(w.processes, w.devices[device].owner)
      && FitsUnder(w.contexts, context, parent, w.devices[device].owner) && IsNext(w.contexts, context, time)
    case ContextStop(time, device, context, parent) =>
      && Named(context) && Named(device) && MaybeNamed(parent) && IsLive(w.devices, device)
      && EndsAfter(w.contexts, context, time)
      && w.contexts[context].holder == device && w.contexts[context].parent == parent
      && (forall k :: IsLive(w.queues, k) ==> w.queues[k].holder != context)
      && (forall k :: IsLive(w.contexts, k) ==> w.contexts[k].parent != context)
    case QueueStart(time, context, queue, parent) =>
      && Named(queue) && Named(context) && MaybeNamed(parent) && IsLive(w.contexts, context)
      && IsLive(w.processes, w.contexts[context].owner)
      && FitsUnder(w.queues, queue, parent, w.contexts[context].owner) && IsNext(w.queues, queue, time)
    case QueueStop(time, context, queue, parent) =>
      && Named(queue) && Named(context) && MaybeNamed(parent) && IsLive(w.contexts, context)
      && EndsAfter(w.queues, queue, time)
      && w.queues[queue].holder == context && w.queues[queue].parent == parent
      && (forall k :: IsLive(w.queues, k) ==> w.queues[k].parent != queue)
  }

  lemma StartedNext(t: Table, key: Key, item: Item, now: nat)
    requires TableInv(t, now) && Start(t, key, item).Ok?
    ensures IsNext(t.objects, key, item.start) && Start(t, key, item).value.objects == t.objects[key := item]
  {
    if key.id in t.last { LastSeparates(t, key, item, now); }
    hide Timed, Separated;
  }

  lemma NextStarts(t: Table, key: Key, item: Item)
    requires Consecutive(t) && key.generation >= 1 && IsNext(t.objects, key, item.start)
    ensures Start(t, key, item).Ok?
  {
    if key.id in t.last {
      assert t.last[key.id] in t.objects;
    }
  }

  lemma StopExact(t: Table, key: Key, time: nat)
    ensures Stop(t, key, time).Ok? <==> EndsAfter(t.objects, key, time)
    ensures Stop(t, key, time).Ok? ==> Stop(t, key, time).value.objects == Ends(t.objects, key, time)
  {
  }

  lemma TableParts(g: Graph)
    requires Tables(g, g.lastTime)
    ensures TableInv(g.processes, g.lastTime) && TableInv(g.devices, g.lastTime)
            && TableInv(g.contexts, g.lastTime) && TableInv(g.queues, g.lastTime)
  {
    hide TableInv;
  }

  lemma NextExact(t: Table, now: nat, key: Key, item: Item)
    requires TableInv(t, now) && key.generation >= 1
    ensures Start(t, key, item).Ok? <==> IsNext(t.objects, key, item.start)
    ensures Start(t, key, item).Ok? ==> Start(t, key, item).value.objects == t.objects[key := item]
  {
    hide Start, IsNext, Consecutive, Timed, Separated;
    if Start(t, key, item).Ok? { StartedNext(t, key, item, now); }
    if IsNext(t.objects, key, item.start) { NextStarts(t, key, item); }
  }

  lemma KeysExact(e: Event)
    ensures EventKeyFault(e).None? <==>
            match e
            case ProcessStart(_, process, parent) => Named(process) && MaybeNamed(parent)
            case ProcessStop(_, process, _) => Named(process)
            case DeviceStart(_, process, device) => Named(process) && Named(device)
            case DeviceStop(_, process, device) => Named(process) && Named(device)
            case ContextStart(_, device, context, parent) => Named(context) && Named(device) && MaybeNamed(parent)
            case ContextStop(_, device, context, parent) => Named(context) && Named(device) && MaybeNamed(parent)
            case QueueStart(_, context, queue, parent) => Named(queue) && Named(context) && MaybeNamed(parent)
            case QueueStop(_, context, queue, parent) => Named(queue) && Named(context) && MaybeNamed(parent)
  {
  }

  lemma LiveExact(t: Table, key: Key)
    ensures Live(t, key).Ok? <==> IsLive(t.objects, key)
    ensures Live(t, key).Ok? ==> Live(t, key).value == t.objects[key]
  {
  }

  lemma ParentExact(t: Table, key: Key, parent: Key, owner: Key)
    ensures ParentTest(t, key, parent, owner).None? <==> FitsUnder(t.objects, key, parent, owner)
  {
  }

  lemma HeldExact(t: Table, holder: Key)
    ensures !AnyLiveHeld(t, holder) <==> forall k :: IsLive(t.objects, k) ==> t.objects[k].holder != holder
    ensures !AnyLiveChild(t, holder) <==> forall k :: IsLive(t.objects, k) ==> t.objects[k].parent != holder
  {
  }

  // ---- one event at a time ----

  lemma ProcessExact(w: Chart, g: Graph, c: Capture, root: Key, e: Event)
    requires Inv(g, root) && Shows(w, g) && EventKeyFault(e).None? && (e.ProcessStart? || e.ProcessStop?)
    requires w.count < 1_000_000 && c.start < e.time < c.end && w.now <= e.time
    ensures Dispatch(g, c, root, e).Ok? && (g.count == 0 ==> e.ProcessStart? && e.process == root)
            <==> Fits(w, c, root, e)
    ensures Dispatch(g, c, root, e).Ok? ==>
              var h := Dispatch(g, c, root, e).value;
              h == g.(processes := h.processes) && h.processes.objects == Note(w, e).processes
              && h.processes.objects != map[]
  {
    hide Links, TableInv, Start, Stop, IsNext, EventKeyFault, EndsAfter, MaybeNamed, IsLive, Live;
    KeysExact(e);
    if e.ProcessStart? {
      NamedGeneration(e.process);
      NextExact(g.processes, g.lastTime, e.process, Item(e.process, NONE, e.parent, e.time, None));
      LiveExact(g.processes, e.parent);
      NothingLive(e.parent);
      assert e.process in Note(w, e).processes;
    } else {
      StopExact(g.processes, e.process, e.time);
      EndsWithin(w.processes, e.process, e.time);
    }
  }

  lemma NamedGeneration(k: Key)
    requires Named(k)
    ensures k.generation >= 1
  {
  }

  lemma NothingLive(key: Key)
    ensures !IsLive(map[], key)
  {
  }

  lemma EndsWithin(t: map<Key, Item>, key: Key, time: nat)
    ensures EndsAfter(t, key, time) ==> key in t && Ends(t, key, time) != map[] && t != map[]
  {
    if key in t { assert key in Ends(t, key, time); }
  }

  lemma DeviceExact(w: Chart, g: Graph, c: Capture, root: Key, e: Event)
    requires Inv(g, root) && Shows(w, g) && EventKeyFault(e).None? && (e.DeviceStart? || e.DeviceStop?)
    requires w.count < 1_000_000 && c.start < e.time < c.end && w.now <= e.time
    ensures Dispatch(g, c, root, e).Ok? <==> Fits(w, c, root, e)
    ensures Dispatch(g, c, root, e).Ok? ==>
              var h := Dispatch(g, c, root, e).value;
              h == g.(devices := h.devices) && h.devices.objects == Note(w, e).devices && w.count > 0
  {
    hide Links, TableInv, Start, Stop, IsNext, EventKeyFault, MaybeNamed, IsLive, Live, AnyLiveHeld;
    KeysExact(e);
    NothingLive(e.process);
    NothingLive(e.device);
    if e.DeviceStart? {
      LiveExact(g.processes, e.process);
      NamedGeneration(e.device);
      NextExact(g.devices, g.lastTime, e.device, Item(e.process, NONE, NONE, e.time, None));
    } else {
      LiveExact(g.devices, e.device);
      if IsLive(w.devices, e.device) { LiveIn(w.devices, e.device); }
      HeldExact(g.contexts, e.device);
      StopExact(g.devices, e.device, e.time);
    }
  }

  lemma LiveIn(t: map<Key, Item>, key: Key)
    requires IsLive(t, key)
    ensures key in t
  {
  }

  lemma ContextStartExact(w: Chart, g: Graph, c: Capture, root: Key, e: Event)
    requires Inv(g, root) && Shows(w, g) && EventKeyFault(e).None? && e.ContextStart?
    requires w.count < 1_000_000 && c.start < e.time < c.end && w.now <= e.time
    ensures Dispatch(g, c, root, e).Ok? <==> Fits(w, c, root, e)
    ensures Dispatch(g, c, root, e).Ok? ==>
              var h := Dispatch(g, c, root, e).value;
              h == g.(contexts := h.contexts) && h.contexts.objects == Note(w, e).contexts && w.count > 0
  {
    hide Links, TableInv, Start, Stop, IsNext, EventKeyFault, MaybeNamed, IsLive, Live, ParentTest, FitsUnder;
    KeysExact(e);
    NothingLive(e.device);
    LiveExact(g.devices, e.device);
    if IsLive(w.devices, e.device) {
      LiveIn(w.devices, e.device);
      var owner := w.devices[e.device].owner;
      LiveExact(g.processes, owner);
      ParentExact(g.contexts, e.context, e.parent, owner);
      NamedGeneration(e.context);
      NextExact(g.contexts, g.lastTime, e.context, Item(owner, e.device, e.parent, e.time, None));
    }
  }

  lemma ContextStopExact(w: Chart, g: Graph, c: Capture, root: Key, e: Event)
    requires Inv(g, root) && Shows(w, g) && EventKeyFault(e).None? && e.ContextStop?
    requires w.count < 1_000_000 && c.start < e.time < c.end && w.now <= e.time
    ensures Dispatch(g, c, root, e).Ok? <==> Fits(w, c, root, e)
    ensures Dispatch(g, c, root, e).Ok? ==>
              var h := Dispatch(g, c, root, e).value;
              h == g.(contexts := h.contexts) && h.contexts.objects == Note(w, e).contexts && w.count > 0
  {
    hide Links, TableInv, Start, Stop, EventKeyFault, MaybeNamed, IsLive, Live, AnyLiveHeld, AnyLiveChild;
    KeysExact(e);
    NothingLive(e.device);
    LiveExact(g.devices, e.device);
    LiveExact(g.contexts, e.context);
    if IsLive(w.contexts, e.context) { LiveIn(w.contexts, e.context); }
    HeldExact(g.queues, e.context);
    HeldExact(g.contexts, e.context);
    StopExact(g.contexts, e.context, e.time);
  }

  lemma QueueStartExact(w: Chart, g: Graph, c: Capture, root: Key, e: Event)
    requires Inv(g, root) && Shows(w, g) && EventKeyFault(e).None? && e.QueueStart?
    requires w.count < 1_000_000 && c.start < e.time < c.end && w.now <= e.time
    ensures Dispatch(g, c, root, e).Ok? <==> Fits(w, c, root, e)
    ensures Dispatch(g, c, root, e).Ok? ==>
              var h := Dispatch(g, c, root, e).value;
              h == g.(queues := h.queues) && h.queues.objects == Note(w, e).queues && w.count > 0
  {
    hide Links, TableInv, Start, Stop, IsNext, EventKeyFault, MaybeNamed, IsLive, Live, ParentTest, FitsUnder;
    KeysExact(e);
    NothingLive(e.context);
    LiveExact(g.contexts, e.context);
    if IsLive(w.contexts, e.context) {
      LiveIn(w.contexts, e.context);
      var owner := w.contexts[e.context].owner;
      LiveExact(g.processes, owner);
      ParentExact(g.queues, e.queue, e.parent, owner);
      NamedGeneration(e.queue);
      NextExact(g.queues, g.lastTime, e.queue, Item(owner, e.context, e.parent, e.time, None));
    }
  }

  lemma QueueStopExact(w: Chart, g: Graph, c: Capture, root: Key, e: Event)
    requires Inv(g, root) && Shows(w, g) && EventKeyFault(e).None? && e.QueueStop?
    requires w.count < 1_000_000 && c.start < e.time < c.end && w.now <= e.time
    ensures Dispatch(g, c, root, e).Ok? <==> Fits(w, c, root, e)
    ensures Dispatch(g, c, root, e).Ok? ==>
              var h := Dispatch(g, c, root, e).value;
              h == g.(queues := h.queues) && h.queues.objects == Note(w, e).queues && w.count > 0
  {
    hide Links, TableInv, Start, Stop, EventKeyFault, MaybeNamed, IsLive, Live, AnyLiveHeld, AnyLiveChild;
    KeysExact(e);
    NothingLive(e.context);
    LiveExact(g.contexts, e.context);
    LiveExact(g.queues, e.queue);
    if IsLive(w.queues, e.queue) { LiveIn(w.queues, e.queue); }
    HeldExact(g.queues, e.queue);
    StopExact(g.queues, e.queue, e.time);
  }

  /** One event is accepted exactly when it fits, and changes the tables as it says. */
  lemma StepExact(w: Chart, g: Graph, c: Capture, root: Key, e: Event)
    requires Inv(g, root) && Shows(w, g)
    ensures Step(g, c, root, e).Ok? <==> Fits(w, c, root, e)
    ensures Step(g, c, root, e).Ok? ==> Shows(Note(w, e), Step(g, c, root, e).value)
  {
    hide Inv, Dispatch, EventKeyFault, IsNext, IsLive, FitsUnder, EndsAfter, Named, MaybeNamed;
    KeysExact(e);
    if w.count < 1_000_000 && c.start < e.time < c.end && w.now <= e.time && EventKeyFault(e).None? {
      match e
      case ProcessStart(_, _, _) => ProcessExact(w, g, c, root, e);
      case ProcessStop(_, _, _) => ProcessExact(w, g, c, root, e);
      case DeviceStart(_, _, _) => DeviceExact(w, g, c, root, e);
      case DeviceStop(_, _, _) => DeviceExact(w, g, c, root, e);
      case ContextStart(_, _, _, _) => ContextStartExact(w, g, c, root, e);
      case ContextStop(_, _, _, _) => ContextStopExact(w, g, c, root, e);
      case QueueStart(_, _, _, _) => QueueStartExact(w, g, c, root, e);
      case QueueStop(_, _, _, _) => QueueStopExact(w, g, c, root, e);
    }
  }

  // ---- whole runs ----

  /** The tables of an accepted run hold the lifetimes that its events make. */
  lemma {:induction false} ChartExact(events: seq<Event>, c: Capture, root: Key)
    requires Run(events, c, root).Ok?
    ensures Shows(ChartOf(events, c), Run(events, c, root).value) && ChartOf(events, c).count == |events|
  {
    hide Step, Inv, Shows;
    if events == [] {
      NothingShows(c);
    } else {
      var n := |events| - 1;
      ChartExact(events[..n], c, root);
      RunKeeps(events[..n], c, root);
      StepExact(ChartOf(events[..n], c), Run(events[..n], c, root).value, c, root, events[n]);
      NoteCounts(ChartOf(events[..n], c), events[n]);
    }
  }

  lemma NothingShows(c: Capture)
    ensures Shows(ChartOf([], c), Initial(c))
  {
  }

  lemma NoteCounts(w: Chart, e: Event)
    ensures Note(w, e).count == w.count + 1
  {
  }

  /** An event is accepted exactly when it fits the lifetimes made so far. */
  lemma EventExact(events: seq<Event>, c: Capture, root: Key, e: Event)
    requires Run(events, c, root).Ok?
    ensures Run(events + [e], c, root).Ok? <==> Fits(ChartOf(events, c), c, root, e)
  {
    hide Step, Inv, Shows, Fits, ChartOf, Run;
    ChartExact(events, c, root);
    RunKeeps(events, c, root);
    RunAppend(events, e, c, root);
    StepExact(ChartOf(events, c), Run(events, c, root).value, c, root, e);
  }

  // ---- what the report counts ----

  datatype Part = Process | Device | Context | Queue

  function TableIn(w: Chart, kind: Part): map<Key, Item> {
    match kind
    case Process => w.processes
    case Device => w.devices
    case Context => w.contexts
    case Queue => w.queues
  }

  function StartOf(e: Event, kind: Part): Option<Key> {
    match kind
    case Process => if e.ProcessStart? then Some(e.process) else None
    case Device => if e.DeviceStart? then Some(e.device) else None
    case Context => if e.ContextStart? then Some(e.context) else None
    case Queue => if e.QueueStart? then Some(e.queue) else None
  }

  function StopOf(e: Event, kind: Part): Option<Key> {
    match kind
    case Process => if e.ProcessStop? then Some(e.process) else None
    case Device => if e.DeviceStop? then Some(e.device) else None
    case Context => if e.ContextStop? then Some(e.context) else None
    case Queue => if e.QueueStop? then Some(e.queue) else None
  }

  /** The keys whose lifetime ended as q says. */
  ghost function Ended(t: map<Key, Item>, q: (Key, nat) -> bool): set<Key> {
    set k | k in t && t[k].stop.Some? && q(k, t[k].stop.value)
  }

  predicate Picks(e: Event, kind: Part, q: (Key, nat) -> bool) {
    StopOf(e, kind).Some? && q(StopOf(e, kind).value, e.time)
  }

  /** The stop events of a kind that q picks. */
  ghost function Stops(events: seq<Event>, kind: Part, q: (Key, nat) -> bool): set<nat> {
    set i: nat | i < |events| && Picks(events[i], kind, q)
  }

  ghost function Starts(events: seq<Event>, kind: Part): set<nat> {
    set i: nat | i < |events| && StartOf(events[i], kind).Some?
  }

  /** What a fitting event does to one table. */
  ghost predicate Moves(before: map<Key, Item>, after: map<Key, Item>, e: Event, kind: Part) {
    if StartOf(e, kind).Some? then
      var k := StartOf(e, kind).value;
      k !in before && k in after && after == before[k := after[k]] && after[k].stop.None?
    else if StopOf(e, kind).Some? then
      var k := StopOf(e, kind).value;
      k in before && before[k].stop.None? && after == before[k := before[k].(stop := Some(e.time))]
    else after == before
  }

  lemma FreshKey(t: map<Key, Item>, key: Key, time: nat)
    requires IsNext(t, key, time)
    ensures key !in t
  {
  }

  lemma FitMoves(w: Chart, c: Capture, root: Key, e: Event, kind: Part)
    requires Fits(w, c, root, e)
    ensures Moves(TableIn(w, kind), TableIn(Note(w, e), kind), e, kind)
  {
    hide IsNext, FitsUnder, Named, MaybeNamed;
    if e.ProcessStart? { FreshKey(w.processes, e.process, e.time); }
    if e.DeviceStart? { FreshKey(w.devices, e.device, e.time); }
    if e.ContextStart? { FreshKey(w.contexts, e.context, e.time); }
    if e.QueueStart? { FreshKey(w.queues, e.queue, e.time); }
  }

  lemma EndedStarted(before: map<Key, Item>, key: Key, item: Item, q: (Key, nat) -> bool)
    requires key !in before && item.stop.None?
    ensures Ended(before[key := item], q) == Ended(before, q)
    ensures |before[key := item]| == |before| + 1
  {
  }

  lemma EndedStopped(before: map<Key, Item>, key: Key, time: nat, q: (Key, nat) -> bool)
    requires key in before && before[key].stop.None?
    ensures var after := before[key := before[key].(stop := Some(time))];
            && key !in Ended(before, q) && |after| == |before|
            && Ended(after, q) == Ended(before, q) + if q(key, time) then {key} else {}
  {
    var after := before[key := before[key].(stop := Some(time))];
    assert after.Keys == before.Keys && |after.Keys| == |after| && |before.Keys| == |before|;
  }

  lemma EndedMoves(before: map<Key, Item>, after: map<Key, Item>, e: Event, kind: Part, q: (Key, nat) -> bool)
    requires Moves(before, after, e, kind)
    ensures |Ended(after, q)| == |Ended(before, q)| + if Picks(e, kind, q) then 1 else 0
    ensures |after| == |before| + if StartOf(e, kind).Some? then 1 else 0
  {
    hide Ended, StartOf, StopOf;
    OneMove(e, kind);
    if StartOf(e, kind).Some? {
      EndedStarted(before, StartOf(e, kind).value, after[StartOf(e, kind).value], q);
    } else if StopOf(e, kind).Some? {
      EndedStopped(before, StopOf(e, kind).value, e.time, q);
    }
  }

  lemma OneMove(e: Event, kind: Part)
    ensures StartOf(e, kind).Some? ==> StopOf(e, kind).None?
  {
  }

  lemma StopsMore(events: seq<Event>, e: Event, kind: Part, q: (Key, nat) -> bool)
    ensures |Stops(events + [e], kind, q)| == |Stops(events, kind, q)| + if Picks(e, kind, q) then 1 else 0
  {
    hide Picks;
    var n, more, before := |events|, events + [e], Stops(events, kind, q);
    assert n !in before;
    if Picks(e, kind, q) {
      assert Stops(more, kind, q) == before + {n};
    } else {
      assert Stops(more, kind, q) == before;
    }
  }

  lemma StartsMore(events: seq<Event>, e: Event, kind: Part)
    ensures |Starts(events + [e], kind)| == |Starts(events, kind)| + if StartOf(e, kind).Some? then 1 else 0
  {
    hide StartOf;
    var n, more, before := |events|, events + [e], Starts(events, kind);
    assert n !in before;
    if StartOf(e, kind).Some? {
      assert Starts(more, kind) == before + {n};
    } else {
      assert Starts(more, kind) == before;
    }
  }

  /** Each start event makes one entry of its table and each stop event ends one. */
  lemma {:induction false} TableCounts(events: seq<Event>, c: Capture, root: Key, kind: Part,
                                       q: (Key, nat) -> bool)
    requires Run(events, c, root).Ok?
    ensures |TableIn(ChartOf(events, c), kind)| == |Starts(events, kind)|
    ensures |Ended(TableIn(ChartOf(events, c), kind), q)| == |Stops(events, kind, q)|
  {
    hide Step, Fits, Moves, Note, Ended, Stops, Starts, StartOf, StopOf;
    if events == [] {
      NothingCounted(c, kind, q);
    } else {
      var n := |events| - 1;
      var init, e := events[..n], events[n];
      assert events == init + [e];
      TableCounts(init, c, root, kind, q);
      EventExact(init, c, root, e);
      FitMoves(ChartOf(init, c), c, root, e, kind);
      EndedMoves(TableIn(ChartOf(init, c), kind), TableIn(ChartOf(events, c), kind), e, kind, q);
      StopsMore(init, e, kind, q);
      StartsMore(init, e, kind);
    }
  }

  lemma NothingCounted(c: Capture, kind: Part, q: (Key, nat) -> bool)
    ensures |TableIn(ChartOf([], c), kind)| == |Starts([], kind)|
    ensures |Ended(TableIn(ChartOf([], c), kind), q)| == |Stops([], kind, q)|
  {
    assert Ended(TableIn(ChartOf([], c), kind), q) == {} && Stops([], kind, q) == {} && Starts([], kind) == {};
  }

  /** The stop comes after the stop of the process that owns the resource. */
  predicate StopsLate(w: Chart, kind: Part, key: Key, time: nat) {
    && key in TableIn(w, kind) && TableIn(w, kind)[key].owner in w.processes
    && w.processes[TableIn(w, kind)[key].owner].stop.Some?
    && time > w.processes[TableIn(w, kind)[key].owner].stop.value
  }

  /** The stop events that come after the stop of the owning process. */
  ghost function LateStops(events: seq<Event>, w: Chart, kind: Part): set<nat> {
    set i: nat | i < |events| && StopOf(events[i], kind).Some?
                 && StopsLate(w, kind, StopOf(events[i], kind).value, events[i].time)
  }

  ghost function StopsAfter(events: seq<Event>, kind: Part, reap: nat): set<nat> {
    set i: nat | i < |events| && StopOf(events[i], kind).Some? && events[i].time > reap
  }

  lemma LateCounts(events: seq<Event>, c: Capture, root: Key, kind: Part)
    requires Run(events, c, root).Ok?
    ensures var w := ChartOf(events, c);
            |Late(TableIn(w, kind), w.processes)| == |LateStops(events, w, kind)|
  {
    hide Run, ChartOf, TableIn, StopOf;
    var w := ChartOf(events, c);
    var late := (k: Key, time: nat) => StopsLate(w, kind, k, time);
    TableCounts(events, c, root, kind, late);
    assert Late(TableIn(w, kind), w.processes) == Ended(TableIn(w, kind), late);
    assert LateStops(events, w, kind) == Stops(events, kind, late);
  }

  lemma ReapCounts(events: seq<Event>, c: Capture, root: Key, kind: Part)
    requires Run(events, c, root).Ok?
    ensures var t := TableIn(ChartOf(events, c), kind);
            |t| == |Starts(events, kind)| && |StoppedAfter(t, c.reap)| == |StopsAfter(events, kind, c.reap)|
  {
    hide Run, ChartOf, TableIn, StopOf;
    var t := TableIn(ChartOf(events, c), kind);
    var after := (k: Key, time: nat) => time > c.reap;
    TableCounts(events, c, root, kind, after);
    assert StoppedAfter(t, c.reap) == Ended(t, after);
    assert StopsAfter(events, kind, c.reap) == Stops(events, kind, after);
  }

  lemma ResourceCounts(events: seq<Event>, c: Capture, root: Key, kind: Part)
    requires Run(events, c, root).Ok?
    ensures var w := ChartOf(events, c);
            var t := TableIn(w, kind);
            && |t| == |Starts(events, kind)|
            && |Late(t, w.processes)| == |LateStops(events, w, kind)|
            && |StoppedAfter(t, c.reap)| == |StopsAfter(events, kind, c.reap)|
  {
    hide Run, ChartOf, Late, LateStops, StoppedAfter, StopsAfter, Starts, TableIn;
    LateCounts(events, c, root, kind);
    ReapCounts(events, c, root, kind);
  }

  /** The report counts the events, the starts of each kind, the stops of resources after their
      process stopped and those after the reap. */
  ghost predicate Tells(events: seq<Event>, c: Capture, r: Report) {
    var w := ChartOf(events, c);
    && r.events == |events| && r.processes == |Starts(events, Process)|
    && r.devices == |Starts(events, Device)| && r.contexts == |Starts(events, Context)|
    && r.queues == |Starts(events, Queue)|
    && r.lateStops == |LateStops(events, w, Device)| + |LateStops(events, w, Context)| + |LateStops(events, w, Queue)|
    && r.stopsAfterReap == |StopsAfter(events, Device, c.reap)| + |StopsAfter(events, Context, c.reap)|
                           + |StopsAfter(events, Queue, c.reap)|
  }

  lemma ReportExact(events: seq<Event>, c: Capture, root: Key)
    requires Run(events, c, root).Ok?
    ensures Tells(events, c, ReportOf(Run(events, c, root).value, c))
  {
    hide Run, ChartOf, Late, StoppedAfter, Starts, LateStops, StopsAfter;
    ChartExact(events, c, root);
    ResourceCounts(events, c, root, Process);
    ResourceCounts(events, c, root, Device);
    ResourceCounts(events, c, root, Context);
    ResourceCounts(events, c, root, Queue);
  }

  /** A lifetime of every kind was made, the root's among them, and all have ended. */
  ghost predicate AllEnded(w: Chart, root: Key) {
    && root in w.processes && w.devices != map[] && w.contexts != map[] && w.queues != map[]
    && forall kind, k :: k in TableIn(w, kind) ==> TableIn(w, kind)[k].stop.Some?
  }

  lemma BalancedExact(events: seq<Event>, c: Capture, root: Key)
    requires Run(events, c, root).Ok?
    ensures Balanced(Run(events, c, root).value, root) <==> AllEnded(ChartOf(events, c), root)
  {
    hide Run, ChartOf;
    ChartExact(events, c, root);
    var w := ChartOf(events, c);
    if AllEnded(w, root) {
      assert forall k :: k in TableIn(w, Process) ==> w.processes[k].stop.Some?;
      assert forall k :: k in TableIn(w, Device) ==> w.devices[k].stop.Some?;
      assert forall k :: k in TableIn(w, Context) ==> w.contexts[k].stop.Some?;
      assert forall k :: k in TableIn(w, Queue) ==> w.queues[k].stop.Some?;
    }
  }

  ghost predicate AllFit(events: seq<Event>, c: Capture, root: Key) {
    forall n :: 0 <= n < |events| ==> Fits(ChartOf(events[..n], c), c, root, events[n])
  }

  /** A run is accepted exactly when each of its events fits the lifetimes made before. */
  lemma {:induction false} RunExact(events: seq<Event>, c: Capture, root: Key)
    ensures Run(events, c, root).Ok? <==> AllFit(events, c, root)
  {
    hide Fits, ChartOf, Step;
    if events != [] {
      var n := |events| - 1;
      var init := events[..n];
      assert events == init + [events[n]];
      RunExact(init, c, root);
      forall m | 0 <= m < n ensures events[..m] == init[..m] && events[m] == init[m] {
      }
      if Run(init, c, root).Ok? { EventExact(init, c, root, events[n]); }
      if AllFit(events, c, root) {
        forall m | 0 <= m < n ensures Fits(ChartOf(init[..m], c), c, root, init[m]) {
          assert Fits(ChartOf(events[..m], c), c, root, events[m]);
        }
      }
    }
  }
}
