/** What every accepted lifetime graph satisfies. */
module WddmProofs {
  import opened Options
  import opened WddmLifetime

  // ---- one registry ----

  /** The generations of an identity are 1 up to the last one started. */
  ghost predicate Consecutive(t: Table) {
    && (forall id :: id in t.last ==> t.last[id].id == id && t.last[id].generation >= 1)
    && (forall k :: k in t.objects <==> k.id in t.last && 1 <= k.generation <= t.last[k.id].generation)
  }

  /** Lifetimes are positive and do not pass the current time. */
  ghost predicate Timed(t: Table, now: nat) {
    forall k :: k in t.objects ==>
      t.objects[k].start <= now && (t.objects[k].stop.Some? ==> t.objects[k].start < t.objects[k].stop.value <= now)
  }

  /** A generation ends strictly before the next one starts. */
  ghost predicate Separated(t: Table) {
    forall k, l :: k in t.objects && l in t.objects && k.id == l.id && k.generation < l.generation ==>
      t.objects[k].stop.Some? && t.objects[k].stop.value < t.objects[l].start
  }

  ghost predicate TableInv(t: Table, now: nat) {
    Consecutive(t) && Timed(t, now) && Separated(t)
  }

  lemma StartConsecutive(t: Table, key: Key, item: Item)
    requires Consecutive(t) && item.stop.None?
    ensures Start(t, key, item) != Fail(MissingKey)
    ensures Start(t, key, item).Ok? ==> Consecutive(Start(t, key, item).value) && key !in t.objects
  {
  }

  lemma StartTimed(t: Table, key: Key, item: Item, now: nat)
    requires Timed(t, now) && now <= item.start && item.stop.None? && Start(t, key, item).Ok?
    ensures Timed(Start(t, key, item).value, item.start)
  {
    var after := Start(t, key, item).value.objects;
    forall k | k in after
      ensures after[k].start <= item.start
              && (after[k].stop.Some? ==> after[k].start < after[k].stop.value <= item.start)
    {
      if k != key { assert after[k] == t.objects[k]; }
    }
  }

  lemma StartSeparated(t: Table, key: Key, item: Item, now: nat)
    requires TableInv(t, now) && item.stop.None? && Start(t, key, item).Ok?
    ensures Separated(Start(t, key, item).value)
  {
    var after := Start(t, key, item).value.objects;
    forall k, l | k in after && l in after && k.id == l.id && k.generation < l.generation
      ensures after[k].stop.Some? && after[k].stop.value < after[l].start
    {
      assert k != key;
      if l == key { LastSeparates(t, key, item, now); }
    }
  }

  lemma StartKeeps(t: Table, key: Key, item: Item, now: nat)
    requires TableInv(t, now) && now <= item.start && item.stop.None?
    ensures Start(t, key, item) != Fail(MissingKey)
    ensures Start(t, key, item).Ok? ==> TableInv(Start(t, key, item).value, item.start) && key !in t.objects
  {
    StartConsecutive(t, key, item);
    if Start(t, key, item).Ok? {
      StartTimed(t, key, item, now);
      StartSeparated(t, key, item, now);
    }
    hide Consecutive, Timed, Separated;
  }

  lemma LastSeparates(t: Table, key: Key, item: Item, now: nat)
    requires TableInv(t, now) && Start(t, key, item).Ok? && key.id in t.last
    ensures forall k :: k in t.objects && k.id == key.id ==>
              t.objects[k].stop.Some? && t.objects[k].stop.value < item.start
  {
    var last := t.last[key.id];
    forall k | k in t.objects && k.id == key.id
      ensures t.objects[k].stop.Some? && t.objects[k].stop.value < item.start
    {
      if k != last { assert t.objects[k].stop.value < t.objects[last].start; }
    }
  }

  lemma StopKeeps(t: Table, key: Key, time: nat, now: nat)
    requires TableInv(t, now) && now <= time
    ensures Stop(t, key, time) != Fail(MissingKey)
    ensures Stop(t, key, time).Ok? ==> TableInv(Stop(t, key, time).value, time)
  {
    if Stop(t, key, time).Ok? {
      StopSeparated(t, key, time);
      var after := Stop(t, key, time).value;
      assert Consecutive(after);
      forall k | k in after.objects
        ensures after.objects[k].start <= time
                && (after.objects[k].stop.Some? ==> after.objects[k].start < after.objects[k].stop.value <= time)
      {
        assert k in t.objects;
      }
    }
  }

  lemma StopSeparated(t: Table, key: Key, time: nat)
    requires Separated(t) && Stop(t, key, time).Ok?
    ensures Separated(Stop(t, key, time).value)
  {
    var after := Stop(t, key, time).value.objects;
    forall k, l | k in after && l in after && k.id == l.id && k.generation < l.generation
      ensures after[k].stop.Some? && after[k].stop.value < after[l].start
    {
      assert t.objects[k].stop.Some? && t.objects[k].stop.value < t.objects[l].start;
      assert k != key;
    }
  }

  // ---- links between lifetimes ----

  /** So far, the lifetime x stays within the lifetime y. */
  predicate WithinSoFar(x: Item, y: Item) {
    && y.start <= x.start && (x.stop.None? ==> y.stop.None?)
    && (x.stop.Some? && y.stop.Some? ==> x.stop.value <= y.stop.value)
  }

  /** The lifetime x began during the lifetime y. */
  predicate BornDuring(x: Item, y: Item) {
    y.start <= x.start && (y.stop.Some? ==> x.start <= y.stop.value)
  }

  ghost predicate Held(children: map<Key, Item>, holders: map<Key, Item>) {
    forall k :: k in children ==>
      children[k].holder in holders && WithinSoFar(children[k], holders[children[k].holder])
      && children[k].owner == holders[children[k].holder].owner
  }

  ghost predicate Parented(t: map<Key, Item>) {
    forall k :: k in t && t[k].parent != NONE ==>
      t[k].parent in t && WithinSoFar(t[k], t[t[k].parent]) && t[k].owner == t[t[k].parent].owner
  }

  ghost predicate Owned(children: map<Key, Item>, processes: map<Key, Item>) {
    forall k :: k in children ==>
      children[k].owner in processes && BornDuring(children[k], processes[children[k].owner])
  }

  /** A process other than the root was started by a process that was then live. */
  predicate SpawnedBy(processes: map<Key, Item>, root: Key, k: Key)
    requires k in processes
  {
    var parent := processes[k].parent;
    if k == root then parent == NONE
    else parent != NONE && parent in processes && BornDuring(processes[k], processes[parent])
  }

  ghost predicate Spawned(processes: map<Key, Item>, root: Key) {
    forall k {:trigger SpawnedBy(processes, root, k)} :: k in processes ==> SpawnedBy(processes, root, k)
  }

  ghost predicate Links(g: Graph, root: Key) {
    && Spawned(g.processes.objects, root)
    && Owned(g.devices.objects, g.processes.objects)
    && Owned(g.contexts.objects, g.processes.objects) && Held(g.contexts.objects, g.devices.objects)
    && Parented(g.contexts.objects)
    && Owned(g.queues.objects, g.processes.objects) && Held(g.queues.objects, g.contexts.objects)
    && Parented(g.queues.objects)
  }

  ghost predicate Tables(g: Graph, now: nat) {
    TableInv(g.processes, now) && TableInv(g.devices, now) && TableInv(g.contexts, now) && TableInv(g.queues, now)
  }

  ghost predicate Inv(g: Graph, root: Key) {
    Tables(g, g.lastTime) && Links(g, root)
  }

  lemma Later(t: Table, now: nat, time: nat)
    requires TableInv(t, now) && now <= time
    ensures TableInv(t, time)
  {
  }

  lemma LaterTables(g: Graph, time: nat)
    requires Tables(g, g.lastTime) && g.lastTime <= time
    ensures Tables(g, time)
  {
    Later(g.processes, g.lastTime, time);
    Later(g.devices, g.lastTime, time);
    Later(g.contexts, g.lastTime, time);
    Later(g.queues, g.lastTime, time);
  }

  /** Starting a new entry, or stopping one, leaves the links that mention a table's keys alone. */
  lemma OwnedByGrown(children: map<Key, Item>, before: Table, key: Key, item: Item)
    requires Owned(children, before.objects) && key !in before.objects
    ensures Owned(children, before.objects[key := item])
  {
  }

  lemma OwnedByStopped(children: Table, before: Table, key: Key, time: nat, now: nat)
    requires Owned(children.objects, before.objects) && key in before.objects && before.objects[key].stop.None?
    requires TableInv(children, now) && now <= time
    ensures Owned(children.objects, before.objects[key := before.objects[key].(stop := Some(time))])
  {
  }

  lemma HolderGrown(children: map<Key, Item>, before: map<Key, Item>, key: Key, item: Item)
    requires Held(children, before) && key !in before
    ensures Held(children, before[key := item])
  {
  }

  /** A holder may stop once none of the lifetimes it holds is live. */
  lemma HolderStopped(children: Table, before: map<Key, Item>, key: Key, time: nat, now: nat)
    requires Held(children.objects, before) && key in before && before[key].stop.None?
    requires TableInv(children, now) && now <= time && !AnyLiveHeld(children, key)
    ensures Held(children.objects, before[key := before[key].(stop := Some(time))])
  {
  }

  lemma ChildStarted(children: map<Key, Item>, holders: map<Key, Item>, key: Key, item: Item)
    requires Held(children, holders) && item.holder in holders && WithinSoFar(item, holders[item.holder])
    requires item.owner == holders[item.holder].owner
    ensures Held(children[key := item], holders)
  {
  }

  lemma ChildStopped(children: map<Key, Item>, holders: map<Key, Item>, key: Key, time: nat)
    requires Held(children, holders) && key in children && children[key].stop.None?
    ensures Held(children[key := children[key].(stop := Some(time))], holders)
  {
  }

  lemma ParentedStarted(t: map<Key, Item>, key: Key, item: Item)
    requires Parented(t) && key !in t
    requires item.parent != NONE ==>
               item.parent in t && WithinSoFar(item, t[item.parent]) && item.owner == t[item.parent].owner
    ensures Parented(t[key := item])
  {
  }

  lemma ParentedStopped(t: Table, key: Key, time: nat, now: nat)
    requires Parented(t.objects) && key in t.objects && t.objects[key].stop.None?
    requires TableInv(t, now) && now <= time && !AnyLiveChild(t, key)
    ensures Parented(t.objects[key := t.objects[key].(stop := Some(time))])
  {
    var after := t.objects[key := t.objects[key].(stop := Some(time))];
    forall k | k in after && after[k].parent != NONE
      ensures after[k].parent in after && WithinSoFar(after[k], after[after[k].parent])
              && after[k].owner == after[after[k].parent].owner
    {
      assert k in t.objects && t.objects[k].parent == after[k].parent;
      if after[k].parent == key { assert t.objects[k].stop.Some?; }
    }
  }

  // ---- each event keeps the links ----

  lemma SpawnedStarted(processes: map<Key, Item>, root: Key, key: Key, item: Item)
    requires Spawned(processes, root) && key !in processes && (item.parent == NONE <==> key == root)
    requires key != root ==> item.parent in processes && BornDuring(item, processes[item.parent])
    ensures Spawned(processes[key := item], root)
  {
    var after := processes[key := item];
    forall k | k in after ensures SpawnedBy(after, root, k) {
      assert k != key ==> SpawnedBy(processes, root, k);
    }
  }

  lemma SpawnedStopped(t: Table, root: Key, key: Key, time: nat, now: nat)
    requires Spawned(t.objects, root) && key in t.objects && t.objects[key].stop.None?
    requires TableInv(t, now) && now <= time
    ensures Spawned(t.objects[key := t.objects[key].(stop := Some(time))], root)
  {
    var after := t.objects[key := t.objects[key].(stop := Some(time))];
    forall k | k in after ensures SpawnedBy(after, root, k) {
      assert SpawnedBy(t.objects, root, k);
    }
  }

  lemma ProcessStartLinks(g: Graph, root: Key, e: Event)
    requires Tables(g, g.lastTime) && Links(g, root) && e.ProcessStart? && g.lastTime <= e.time
    ensures var r := StartProcess(g, root, e);
            r != Fail(MissingKey) && (r.Ok? ==> Links(r.value, root) && Tables(r.value, e.time))
  {
    hide TableInv, Spawned, Owned, Held, Parented, AnyLiveHeld, AnyLiveChild;
    var item := Item(e.process, NONE, e.parent, e.time, None);
    StartKeeps(g.processes, e.process, item, g.lastTime);
    LaterTables(g, e.time);
    var r := StartProcess(g, root, e);
    if r.Ok? {
      assert r.value.processes.objects == g.processes.objects[e.process := item];
      LiveNow(g.processes, e.parent, e.time, g.lastTime);
      OwnedByGrown(g.devices.objects, g.processes, e.process, item);
      OwnedByGrown(g.contexts.objects, g.processes, e.process, item);
      OwnedByGrown(g.queues.objects, g.processes, e.process, item);
      SpawnedStarted(g.processes.objects, root, e.process, item);
    }
  }

  lemma LiveNow(t: Table, key: Key, time: nat, now: nat)
    requires TableInv(t, now) && now <= time
    ensures Live(t, key).Ok? ==>
              key in t.objects && t.objects[key] == Live(t, key).value && t.objects[key].stop.None?
              && t.objects[key].start <= time
  {
  }

  lemma ProcessStopLinks(g: Graph, root: Key, key: Key, time: nat)
    requires Tables(g, g.lastTime) && Links(g, root) && g.lastTime <= time
    ensures var t := Stop(g.processes, key, time);
            t != Fail(MissingKey)
            && (t.Ok? ==> Links(g.(processes := t.value), root) && Tables(g.(processes := t.value), time))
  {
    hide TableInv, Spawned, Owned, Held, Parented, AnyLiveHeld, AnyLiveChild;
    StopKeeps(g.processes, key, time, g.lastTime);
    LaterTables(g, time);
    if Stop(g.processes, key, time).Ok? {
      OwnedByStopped(g.devices, g.processes, key, time, g.lastTime);
      OwnedByStopped(g.contexts, g.processes, key, time, g.lastTime);
      OwnedByStopped(g.queues, g.processes, key, time, g.lastTime);
      SpawnedStopped(g.processes, root, key, time, g.lastTime);
    }
  }

  lemma DeviceStartLinks(g: Graph, root: Key, e: Event)
    requires Tables(g, g.lastTime) && Links(g, root) && e.DeviceStart? && g.lastTime <= e.time
    ensures var r := StartDevice(g, e);
            r != Fail(MissingKey) && (r.Ok? ==> Links(r.value, root) && Tables(r.value, e.time))
  {
    hide TableInv, Spawned, Owned, Held, Parented, AnyLiveHeld, AnyLiveChild;
    var item := Item(e.process, NONE, NONE, e.time, None);
    StartKeeps(g.devices, e.device, item, g.lastTime);
    LaterTables(g, e.time);
    if StartDevice(g, e).Ok? {
      HolderGrown(g.contexts.objects, g.devices.objects, e.device, item);
      OwnedStarted(g.devices.objects, g.processes, e.device, item, g.lastTime);
    }
  }

  lemma DeviceStopLinks(g: Graph, root: Key, e: Event)
    requires Tables(g, g.lastTime) && Links(g, root) && e.DeviceStop? && g.lastTime <= e.time
    ensures var r := StopDevice(g, e);
            r != Fail(MissingKey) && (r.Ok? ==> Links(r.value, root) && Tables(r.value, e.time))
  {
    hide TableInv, Spawned, Owned, Held, Parented, AnyLiveHeld, AnyLiveChild;
    StopKeeps(g.devices, e.device, e.time, g.lastTime);
    LaterTables(g, e.time);
    if StopDevice(g, e).Ok? {
      HolderStopped(g.contexts, g.devices.objects, e.device, e.time, g.lastTime);
      OwnedStopped(g.devices.objects, g.processes.objects, e.device, e.time);
    }
  }

  lemma OwnedStopped(children: map<Key, Item>, processes: map<Key, Item>, key: Key, time: nat)
    requires Owned(children, processes) && key in children
    ensures Owned(children[key := children[key].(stop := Some(time))], processes)
  {
  }

  lemma OwnedStarted(children: map<Key, Item>, processes: Table, key: Key, item: Item, now: nat)
    requires Owned(children, processes.objects) && TableInv(processes, now) && now <= item.start
    requires Live(processes, item.owner).Ok?
    ensures Owned(children[key := item], processes.objects)
  {
  }

  lemma ContextStartLinks(g: Graph, root: Key, e: Event)
    requires Tables(g, g.lastTime) && Links(g, root) && e.ContextStart? && g.lastTime <= e.time
    ensures var r := StartContext(g, e);
            r != Fail(MissingKey) && (r.Ok? ==> Links(r.value, root) && Tables(r.value, e.time))
  {
    hide TableInv, Spawned, Owned, Held, Parented, AnyLiveHeld, AnyLiveChild;
    var r := StartContext(g, e);
    LaterTables(g, e.time);
    if Live(g.devices, e.device).Ok? {
      var item := Item(Live(g.devices, e.device).value.owner, e.device, e.parent, e.time, None);
      StartKeeps(g.contexts, e.context, item, g.lastTime);
      if r.Ok? {
        LiveNow(g.devices, e.device, e.time, g.lastTime);
        LiveNow(g.contexts, e.parent, e.time, g.lastTime);
        OwnedStarted(g.contexts.objects, g.processes, e.context, item, g.lastTime);
        ChildStarted(g.contexts.objects, g.devices.objects, e.context, item);
        HolderGrown(g.queues.objects, g.contexts.objects, e.context, item);
        ParentedStarted(g.contexts.objects, e.context, item);
      }
    }
  }

  lemma ContextStopLinks(g: Graph, root: Key, e: Event)
    requires Tables(g, g.lastTime) && Links(g, root) && e.ContextStop? && g.lastTime <= e.time
    ensures var r := StopContext(g, e);
            r != Fail(MissingKey) && (r.Ok? ==> Links(r.value, root) && Tables(r.value, e.time))
  {
    hide TableInv, Spawned, Owned, Held, Parented, AnyLiveHeld, AnyLiveChild;
    StopKeeps(g.contexts, e.context, e.time, g.lastTime);
    LaterTables(g, e.time);
    if StopContext(g, e).Ok? {
      OwnedStopped(g.contexts.objects, g.processes.objects, e.context, e.time);
      ChildStopped(g.contexts.objects, g.devices.objects, e.context, e.time);
      HolderStopped(g.queues, g.contexts.objects, e.context, e.time, g.lastTime);
      ParentedStopped(g.contexts, e.context, e.time, g.lastTime);
    }
  }

  lemma QueueStartLinks(g: Graph, root: Key, e: Event)
    requires Tables(g, g.lastTime) && Links(g, root) && e.QueueStart? && g.lastTime <= e.time
    ensures var r := StartQueue(g, e);
            r != Fail(MissingKey) && (r.Ok? ==> Links(r.value, root) && Tables(r.value, e.time))
  {
    hide TableInv, Spawned, Owned, Held, Parented, AnyLiveHeld, AnyLiveChild;
    var r := StartQueue(g, e);
    LaterTables(g, e.time);
    if Live(g.contexts, e.context).Ok? {
      var item := Item(Live(g.contexts, e.context).value.owner, e.context, e.parent, e.time, None);
      StartKeeps(g.queues, e.queue, item, g.lastTime);
      if r.Ok? {
        LiveNow(g.contexts, e.context, e.time, g.lastTime);
        LiveNow(g.queues, e.parent, e.time, g.lastTime);
        OwnedStarted(g.queues.objects, g.processes, e.queue, item, g.lastTime);
        ChildStarted(g.queues.objects, g.contexts.objects, e.queue, item);
        ParentedStarted(g.queues.objects, e.queue, item);
      }
    }
  }

  lemma QueueStopLinks(g: Graph, root: Key, e: Event)
    requires Tables(g, g.lastTime) && Links(g, root) && e.QueueStop? && g.lastTime <= e.time
    ensures var r := StopQueue(g, e);
            r != Fail(MissingKey) && (r.Ok? ==> Links(r.value, root) && Tables(r.value, e.time))
  {
    hide TableInv, Spawned, Owned, Held, Parented, AnyLiveHeld, AnyLiveChild;
    StopKeeps(g.queues, e.queue, e.time, g.lastTime);
    LaterTables(g, e.time);
    if StopQueue(g, e).Ok? {
      OwnedStopped(g.queues.objects, g.processes.objects, e.queue, e.time);
      ChildStopped(g.queues.objects, g.contexts.objects, e.queue, e.time);
      ParentedStopped(g.queues, e.queue, e.time, g.lastTime);
    }
  }

  lemma KeyFaults(e: Event)
    ensures EventKeyFault(e) != Some(MissingKey)
  {
  }

  lemma StepKeeps(g: Graph, c: Capture, root: Key, e: Event)
    requires Inv(g, root)
    ensures var r := Step(g, c, root, e); r != Fail(MissingKey) && (r.Ok? ==> Inv(r.value, root))
  {
    hide TableInv, Spawned, Owned, Held, Parented, AnyLiveHeld, AnyLiveChild, EventKeyFault;
    KeyFaults(e);
    if g.lastTime <= e.time {
      match e
      case ProcessStart(_, _, _) => ProcessStartLinks(g, root, e);
      case ProcessStop(time, process, _) => ProcessStopLinks(g, root, process, time);
      case DeviceStart(_, _, _) => DeviceStartLinks(g, root, e);
      case DeviceStop(_, _, _) => DeviceStopLinks(g, root, e);
      case ContextStart(_, _, _, _) => ContextStartLinks(g, root, e);
      case ContextStop(_, _, _, _) => ContextStopLinks(g, root, e);
      case QueueStart(_, _, _, _) => QueueStartLinks(g, root, e);
      case QueueStop(_, _, _, _) => QueueStopLinks(g, root, e);
    }
  }

  // ---- whole runs ----

  /** No run reads a missing key, and every accepted run keeps the tables and links. */
  lemma {:induction false} RunKeeps(events: seq<Event>, c: Capture, root: Key)
    ensures Run(events, c, root) != Fail(MissingKey)
    ensures Run(events, c, root).Ok? ==> Inv(Run(events, c, root).value, root)
  {
    if events != [] {
      var before := Run(events[..|events| - 1], c, root);
      RunKeeps(events[..|events| - 1], c, root);
      if before.Ok? { StepKeeps(before.value, c, root, events[|events| - 1]); }
      hide Step, Inv;
    }
  }

  /** The whole lifetime x lies within the whole lifetime y. */
  predicate Within(x: Item, y: Item) {
    x.stop.Some? && y.stop.Some? && y.start <= x.start < x.stop.value <= y.stop.value
  }

  /** The lifetimes of one identity have generations 1 to n and follow each other strictly. */
  ghost predicate Generations(t: map<Key, Item>) {
    && (forall k, g: nat :: k in t && 1 <= g <= k.generation ==> Key(k.id, g) in t)
    && (forall k, l :: k in t && l in t && k.id == l.id && k.generation < l.generation ==>
          t[k].stop.Some? && t[k].start < t[k].stop.value < t[l].start)
  }

  /** Every accepted balanced run: identities are reused only in strictly later generations,
      contexts live within their device, queues within their context, children within their
      parent, and every resource began while its process was live. */
  lemma BalancedRunNests(events: seq<Event>, c: Capture, root: Key)
    requires Run(events, c, root).Ok? && Balanced(Run(events, c, root).value, root)
    ensures var g := Run(events, c, root).value;
            && Generations(g.processes.objects) && Generations(g.devices.objects)
            && Generations(g.contexts.objects) && Generations(g.queues.objects)
    ensures var g := Run(events, c, root).value;
            var devices, contexts, queues := g.devices.objects, g.contexts.objects, g.queues.objects;
            && EachWithin(contexts, devices) && EachWithin(queues, contexts)
            && ChildrenWithin(contexts) && ChildrenWithin(queues)
    ensures var g := Run(events, c, root).value;
            && Owned(g.devices.objects, g.processes.objects) && Owned(g.contexts.objects, g.processes.objects)
            && Owned(g.queues.objects, g.processes.objects) && Spawned(g.processes.objects, root)
  {
    RunKeeps(events, c, root);
    var g := Run(events, c, root).value;
    hide TableInv, Held, Parented, Owned, Spawned, Generations, ChildrenWithin, EachWithin;
    GenerationsOf(g.processes, g.lastTime);
    GenerationsOf(g.devices, g.lastTime);
    GenerationsOf(g.contexts, g.lastTime);
    GenerationsOf(g.queues, g.lastTime);
    HeldWithin(g.contexts, g.devices, g.lastTime);
    HeldWithin(g.queues, g.contexts, g.lastTime);
    ParentedWithin(g.contexts, g.lastTime);
    ParentedWithin(g.queues, g.lastTime);
  }

  ghost predicate EachWithin(children: map<Key, Item>, holders: map<Key, Item>) {
    forall k :: k in children ==>
      children[k].holder in holders && Within(children[k], holders[children[k].holder])
      && children[k].owner == holders[children[k].holder].owner
  }

  ghost predicate ChildrenWithin(t: map<Key, Item>) {
    forall k :: k in t && t[k].parent != NONE ==>
      t[k].parent in t && Within(t[k], t[t[k].parent]) && t[k].owner == t[t[k].parent].owner
  }

  lemma GenerationsOf(t: Table, now: nat)
    requires TableInv(t, now)
    ensures Generations(t.objects)
  {
  }

  lemma HeldWithin(children: Table, holders: Table, now: nat)
    requires TableInv(children, now) && !AnyLive(children) && !AnyLive(holders)
    requires Held(children.objects, holders.objects)
    ensures EachWithin(children.objects, holders.objects)
  {
  }

  lemma ParentedWithin(t: Table, now: nat)
    requires TableInv(t, now) && !AnyLive(t) && Parented(t.objects)
    ensures ChildrenWithin(t.objects)
  {
    forall k | k in t.objects && t.objects[k].parent != NONE
      ensures t.objects[k].parent in t.objects && Within(t.objects[k], t.objects[t.objects[k].parent])
              && t.objects[k].owner == t.objects[t.objects[k].parent].owner
    {
      assert WithinSoFar(t.objects[k], t.objects[t.objects[k].parent]);
    }
  }

  // ---- parents form no cycle ----

  datatype Kind = Processes | Contexts | Queues

  function TableOf(g: Graph, kind: Kind): map<Key, Item> {
    match kind
    case Processes => g.processes.objects
    case Contexts => g.contexts.objects
    case Queues => g.queues.objects
  }

  /** The key that an event starts in the table of a kind. */
  function Started(e: Event, kind: Kind): Option<Key> {
    match kind
    case Processes => if e.ProcessStart? then Some(e.process) else None
    case Contexts => if e.ContextStart? then Some(e.context) else None
    case Queues => if e.QueueStart? then Some(e.queue) else None
  }

  /** The position in the run at which each key started. */
  function Ranks(events: seq<Event>, kind: Kind): map<Key, nat> {
    if events == [] then map[]
    else
      var before := Ranks(events[..|events| - 1], kind);
      var key := Started(events[|events| - 1], kind);
      if key.Some? then before[key.value := |events| - 1] else before
  }

  predicate RankedBelow(t: map<Key, Item>, ranks: map<Key, nat>, n: nat, k: Key)
    requires k in t
  {
    k in ranks && ranks[k] < n
    && (t[k].parent != NONE ==> t[k].parent in t && t[k].parent in ranks && ranks[t[k].parent] < ranks[k])
  }

  ghost predicate Ranked(t: map<Key, Item>, ranks: map<Key, nat>, n: nat) {
    forall k {:trigger RankedBelow(t, ranks, n, k)} :: k in t ==> RankedBelow(t, ranks, n, k)
  }

  /** How one event changes the table of a kind. */
  ghost predicate Changed(before: map<Key, Item>, after: map<Key, Item>, key: Option<Key>) {
    match key
    case Some(k) =>
      k !in before && k in after && after == before[k := after[k]]
      && (after[k].parent != NONE ==> after[k].parent in before)
    case None =>
      after.Keys == before.Keys && forall k :: k in after ==> after[k].parent == before[k].parent
  }

  lemma StartChanges(t: Table, key: Key, item: Item, now: nat)
    requires TableInv(t, now) && Start(t, key, item).Ok? && (item.parent != NONE ==> item.parent in t.objects)
    ensures Changed(t.objects, Start(t, key, item).value.objects, Some(key))
  {
  }

  lemma StopChanges(t: Table, key: Key, time: nat)
    requires Stop(t, key, time).Ok?
    ensures Changed(t.objects, Stop(t, key, time).value.objects, None)
  {
  }

  lemma NothingChanges(t: map<Key, Item>)
    ensures Changed(t, t, None)
  {
  }

  lemma ProcessesChange(g: Graph, c: Capture, root: Key, e: Event)
    requires Inv(g, root) && Dispatch(g, c, root, e).Ok?
    ensures Changed(g.processes.objects, Dispatch(g, c, root, e).value.processes.objects, Started(e, Processes))
  {
    hide Start, Stop, TableInv, Links, Changed, AnyLiveHeld, AnyLiveChild;
    if e.ProcessStart? {
      StartChanges(g.processes, e.process, Item(e.process, NONE, e.parent, e.time, None), g.lastTime);
    } else if e.ProcessStop? {
      StopChanges(g.processes, e.process, e.time);
    } else {
      NothingChanges(g.processes.objects);
    }
  }

  lemma ContextsChange(g: Graph, c: Capture, root: Key, e: Event)
    requires Inv(g, root) && Dispatch(g, c, root, e).Ok?
    ensures Changed(g.contexts.objects, Dispatch(g, c, root, e).value.contexts.objects, Started(e, Contexts))
  {
    hide Start, Stop, TableInv, Links, Changed, AnyLiveHeld, AnyLiveChild;
    if e.ContextStart? {
      var owner := Live(g.devices, e.device).value.owner;
      StartChanges(g.contexts, e.context, Item(owner, e.device, e.parent, e.time, None), g.lastTime);
    } else if e.ContextStop? {
      StopChanges(g.contexts, e.context, e.time);
    } else {
      NothingChanges(g.contexts.objects);
    }
  }

  lemma QueuesChange(g: Graph, c: Capture, root: Key, e: Event)
    requires Inv(g, root) && Dispatch(g, c, root, e).Ok?
    ensures Changed(g.queues.objects, Dispatch(g, c, root, e).value.queues.objects, Started(e, Queues))
  {
    hide Start, Stop, TableInv, Links, Changed, AnyLiveHeld, AnyLiveChild;
    if e.QueueStart? {
      var owner := Live(g.contexts, e.context).value.owner;
      StartChanges(g.queues, e.queue, Item(owner, e.context, e.parent, e.time, None), g.lastTime);
    } else if e.QueueStop? {
      StopChanges(g.queues, e.queue, e.time);
    } else {
      NothingChanges(g.queues.objects);
    }
  }

  lemma StepChanges(g: Graph, c: Capture, root: Key, e: Event, kind: Kind)
    requires Inv(g, root) && Step(g, c, root, e).Ok?
    ensures Changed(TableOf(g, kind), TableOf(Step(g, c, root, e).value, kind), Started(e, kind))
  {
    hide Dispatch, Inv, Changed, EventKeyFault;
    match kind
    case Processes => ProcessesChange(g, c, root, e);
    case Contexts => ContextsChange(g, c, root, e);
    case Queues => QueuesChange(g, c, root, e);
  }

  lemma RankedChange(before: map<Key, Item>, after: map<Key, Item>, key: Option<Key>,
                     ranks: map<Key, nat>, n: nat, next: nat)
    requires Ranked(before, ranks, n) && Changed(before, after, key) && next == n + 1
    ensures Ranked(after, if key.Some? then ranks[key.value := n] else ranks, next)
  {
    var ranked := if key.Some? then ranks[key.value := n] else ranks;
    forall k | k in after ensures RankedBelow(after, ranked, next, k) {
      if k in before { assert RankedBelow(before, ranks, n, k); }
      if key.Some? && after[k].parent != NONE {
        assert after[k].parent in before;
        assert RankedBelow(before, ranks, n, after[k].parent);
      }
    }
  }

  lemma {:induction false} RunRanked(events: seq<Event>, c: Capture, root: Key, kind: Kind)
    requires Run(events, c, root).Ok?
    ensures Ranked(TableOf(Run(events, c, root).value, kind), Ranks(events, kind), |events|)
  {
    if events != [] {
      var init, e := events[..|events| - 1], events[|events| - 1];
      RunRanked(init, c, root, kind);
      RunKeeps(init, c, root);
      var g := Run(init, c, root).value;
      StepChanges(g, c, root, e, kind);
      RankedChange(TableOf(g, kind), TableOf(Step(g, c, root, e).value, kind), Started(e, kind),
                   Ranks(init, kind), |init|, |events|);
      hide Step, Ranked, Changed, Inv;
    }
  }

  /** The ancestor n parent links up, if there is one. */
  function Ancestor(t: map<Key, Item>, k: Key, n: nat): Option<Key>
    decreases n
  {
    if n == 0 then Some(k)
    else if k !in t || t[k].parent == NONE then None
    else Ancestor(t, t[k].parent, n - 1)
  }

  lemma {:induction false} AncestorIsEarlier(t: map<Key, Item>, ranks: map<Key, nat>, bound: nat, k: Key, n: nat)
    requires Ranked(t, ranks, bound) && k in t && n > 0 && Ancestor(t, k, n).Some?
    ensures var a := Ancestor(t, k, n).value; a in t && a in ranks && k in ranks && ranks[a] < ranks[k]
    decreases n
  {
    assert RankedBelow(t, ranks, bound, k);
    if n > 1 { AncestorIsEarlier(t, ranks, bound, t[k].parent, n - 1); }
  }

  /** In every accepted run no process, context or queue is its own ancestor. */
  lemma ParentsAcyclic(events: seq<Event>, c: Capture, root: Key, kind: Kind, k: Key, n: nat)
    requires Run(events, c, root).Ok? && n > 0
    ensures k in TableOf(Run(events, c, root).value, kind) ==>
              Ancestor(TableOf(Run(events, c, root).value, kind), k, n) != Some(k)
  {
    var t := TableOf(Run(events, c, root).value, kind);
    RunRanked(events, c, root, kind);
    if k in t && Ancestor(t, k, n).Some? { AncestorIsEarlier(t, Ranks(events, kind), |events|, k, n); }
  }

  lemma RunAppend(events: seq<Event>, e: Event, c: Capture, root: Key)
    requires Run(events, c, root).Ok?
    ensures Run(events + [e], c, root) == Step(Run(events, c, root).value, c, root, e)
  {
    assert (events + [e])[..|events|] == events;
  }

  // ---- resources and the processes that own them ----

  ghost predicate InOwners(t: map<Key, Item>, processes: map<Key, Item>) {
    forall k :: k in t ==> t[k].owner in processes && Within(t[k], processes[t[k].owner])
  }

  /** No device stops after the process named in its stop has stopped. */
  ghost predicate NoLateDeviceStop(events: seq<Event>) {
    forall d, p :: d in events && p in events && d.DeviceStop? && p.ProcessStop? && d.process == p.process ==>
      d.time <= p.time
  }

  /** The stop events of devices are the stops in the table. */
  ghost predicate DeviceStopsAre(events: seq<Event>, t: map<Key, Item>) {
    && (forall e :: e in events && e.DeviceStop? ==>
          e.device in t && t[e.device].stop == Some(e.time) && t[e.device].owner == e.process)
    && (forall k :: k in t && t[k].stop.Some? ==> DeviceStop(t[k].stop.value, t[k].owner, k) in events)
  }

  ghost predicate ProcessStopsAre(events: seq<Event>, t: map<Key, Item>) {
    && (forall e :: e in events && e.ProcessStop? ==> e.process in t && t[e.process].stop == Some(e.time))
    && (forall k :: k in t && t[k].stop.Some? ==> ProcessStop(t[k].stop.value, k, 0) in events)
  }

  lemma StartIs(t: Table, key: Key, item: Item, now: nat)
    requires TableInv(t, now) && Start(t, key, item).Ok?
    ensures key !in t.objects && Start(t, key, item).value.objects == t.objects[key := item]
  {
  }

  lemma StopIs(t: Table, key: Key, time: nat)
    requires Stop(t, key, time).Ok?
    ensures key in t.objects && t.objects[key].stop.None?
    ensures Stop(t, key, time).value.objects == t.objects[key := t.objects[key].(stop := Some(time))]
  {
  }

  /** What one event does to the devices. */
  lemma DevicesChange(g: Graph, c: Capture, root: Key, e: Event)
    requires Inv(g, root) && Dispatch(g, c, root, e).Ok?
    ensures var before, after := g.devices.objects, Dispatch(g, c, root, e).value.devices.objects;
            match e
            case DeviceStart(time, process, device) =>
              device !in before && after == before[device := Item(process, NONE, NONE, time, None)]
            case DeviceStop(time, process, device) =>
              device in before && before[device].stop.None? && before[device].owner == process
              && after == before[device := before[device].(stop := Some(time))]
            case _ => after == before
  {
    hide Start, Stop, TableInv, Links, AnyLiveHeld, AnyLiveChild;
    if e.DeviceStart? {
      StartIs(g.devices, e.device, Item(e.process, NONE, NONE, e.time, None), g.lastTime);
    } else if e.DeviceStop? {
      StopIs(g.devices, e.device, e.time);
    }
  }

  lemma ProcessesStopChange(g: Graph, c: Capture, root: Key, e: Event)
    requires Inv(g, root) && Dispatch(g, c, root, e).Ok?
    ensures var before, after := g.processes.objects, Dispatch(g, c, root, e).value.processes.objects;
            match e
            case ProcessStart(time, process, parent) =>
              process !in before && after == before[process := Item(process, NONE, parent, time, None)]
            case ProcessStop(time, process, exitCode) =>
              exitCode == 0 && process in before && before[process].stop.None?
              && after == before[process := before[process].(stop := Some(time))]
            case _ => after == before
  {
    hide Start, Stop, TableInv, Links, AnyLiveHeld, AnyLiveChild;
    if e.ProcessStart? {
      StartIs(g.processes, e.process, Item(e.process, NONE, e.parent, e.time, None), g.lastTime);
    } else if e.ProcessStop? {
      StopIs(g.processes, e.process, e.time);
    }
  }

  lemma DeviceStopsStep(events: seq<Event>, g: Graph, c: Capture, root: Key, e: Event)
    requires Inv(g, root) && Dispatch(g, c, root, e).Ok? && DeviceStopsAre(events, g.devices.objects)
    ensures DeviceStopsAre(events + [e], Dispatch(g, c, root, e).value.devices.objects)
  {
    hide Dispatch, Inv;
    DevicesChange(g, c, root, e);
  }

  lemma ProcessStopsStep(events: seq<Event>, g: Graph, c: Capture, root: Key, e: Event)
    requires Inv(g, root) && Dispatch(g, c, root, e).Ok? && ProcessStopsAre(events, g.processes.objects)
    ensures ProcessStopsAre(events + [e], Dispatch(g, c, root, e).value.processes.objects)
  {
    hide Dispatch, Inv;
    ProcessesStopChange(g, c, root, e);
  }

  lemma StopsStep(events: seq<Event>, g: Graph, c: Capture, root: Key, e: Event)
    requires Inv(g, root) && Step(g, c, root, e).Ok?
    requires DeviceStopsAre(events, g.devices.objects) && ProcessStopsAre(events, g.processes.objects)
    ensures DeviceStopsAre(events + [e], Step(g, c, root, e).value.devices.objects)
    ensures ProcessStopsAre(events + [e], Step(g, c, root, e).value.processes.objects)
  {
    hide Dispatch, Inv, DeviceStopsAre, ProcessStopsAre, EventKeyFault;
    DeviceStopsStep(events, g, c, root, e);
    ProcessStopsStep(events, g, c, root, e);
  }

  lemma {:induction false} StopsAreRecorded(events: seq<Event>, c: Capture, root: Key)
    requires Run(events, c, root).Ok?
    ensures DeviceStopsAre(events, Run(events, c, root).value.devices.objects)
    ensures ProcessStopsAre(events, Run(events, c, root).value.processes.objects)
  {
    hide Step, Inv, DeviceStopsAre, ProcessStopsAre;
    if events != [] {
      var init, e := events[..|events| - 1], events[|events| - 1];
      StopsAreRecorded(init, c, root);
      RunKeeps(init, c, root);
      StopsStep(init, Run(init, c, root).value, c, root, e);
      assert events == init + [e];
    } else {
      NoStops(c);
    }
  }

  lemma NoStops(c: Capture)
    ensures DeviceStopsAre([], Initial(c).devices.objects) && ProcessStopsAre([], Initial(c).processes.objects)
  {
  }

  lemma DevicesInOwners(events: seq<Event>, devices: Table, processes: Table, now: nat)
    requires DeviceStopsAre(events, devices.objects) && ProcessStopsAre(events, processes.objects)
    requires TableInv(devices, now) && Owned(devices.objects, processes.objects)
    requires !AnyLive(devices) && !AnyLive(processes)
    ensures InOwners(devices.objects, processes.objects) <==> NoLateDeviceStop(events)
  {
    var d, p := devices.objects, processes.objects;
    if NoLateDeviceStop(events) {
      forall k | k in d ensures d[k].owner in p && Within(d[k], p[d[k].owner]) {
        assert DeviceStop(d[k].stop.value, d[k].owner, k) in events;
        assert ProcessStop(p[d[k].owner].stop.value, d[k].owner, 0) in events;
      }
    }
  }

  /** What lies within a holder of the same owner lies within the owner too. */
  lemma HeldInOwners(children: map<Key, Item>, holders: map<Key, Item>, processes: map<Key, Item>)
    requires EachWithin(children, holders) && InOwners(holders, processes)
    ensures InOwners(children, processes)
  {
    forall k | k in children
      ensures children[k].owner in processes && Within(children[k], processes[children[k].owner])
    {
      assert Within(children[k], holders[children[k].holder]);
    }
  }

  lemma LateExactly(t: Table, processes: Table, now: nat)
    requires TableInv(t, now) && Owned(t.objects, processes.objects) && !AnyLive(t) && !AnyLive(processes)
    ensures |Late(t.objects, processes.objects)| == 0 <==> InOwners(t.objects, processes.objects)
  {
    var late := Late(t.objects, processes.objects);
    if late == {} {
      forall k | k in t.objects
        ensures t.objects[k].owner in processes.objects && Within(t.objects[k], processes.objects[t.objects[k].owner])
      {
        assert k !in late;
      }
    } else {
      var k :| k in late;
      assert !Within(t.objects[k], processes.objects[t.objects[k].owner]);
    }
  }

  /** In every accepted balanced run the resources all lie within the processes that own them
      exactly when no device stop comes later than the stop of its process, and exactly when
      the report counts no late stop. */
  lemma ProcessNestingExact(events: seq<Event>, c: Capture, root: Key)
    requires Run(events, c, root).Ok? && Balanced(Run(events, c, root).value, root)
    ensures var g := Run(events, c, root).value;
            var p := g.processes.objects;
            && (InOwners(g.devices.objects, p) && InOwners(g.contexts.objects, p) && InOwners(g.queues.objects, p)
                <==> NoLateDeviceStop(events))
            && (ReportOf(g, c).lateStops == 0 <==> NoLateDeviceStop(events))
  {
    RunKeeps(events, c, root);
    StopsAreRecorded(events, c, root);
    BalancedRunNests(events, c, root);
    var g := Run(events, c, root).value;
    hide Run, TableInv, Spawned, Held, Parented, Owned, Generations, EachWithin, ChildrenWithin, InOwners, Late,
         AnyLive, NoLateDeviceStop, DeviceStopsAre, ProcessStopsAre, StoppedAfter;
    DevicesInOwners(events, g.devices, g.processes, g.lastTime);
    if InOwners(g.devices.objects, g.processes.objects) {
      HeldInOwners(g.contexts.objects, g.devices.objects, g.processes.objects);
      HeldInOwners(g.queues.objects, g.contexts.objects, g.processes.objects);
    }
    LateExactly(g.devices, g.processes, g.lastTime);
    LateExactly(g.contexts, g.processes, g.lastTime);
    LateExactly(g.queues, g.processes, g.lastTime);
  }

  const ONLY := Key(1, 1)

  function One(item: Item): Table {
    Table(map[ONLY := item], map[1 := ONLY])
  }

  lemma StartOne(item: Item)
    ensures Start(EMPTY, ONLY, item) == Ok(One(item))
  {
    assert EMPTY.objects[ONLY := item] == map[ONLY := item];
    assert EMPTY.last[1 := ONLY] == map[1 := ONLY];
  }

  lemma StopOne(item: Item, time: nat)
    requires item.stop.None? && item.start < time
    ensures Stop(One(item), ONLY, time) == Ok(One(item.(stop := Some(time))))
  {
    assert map[ONLY := item][ONLY := item.(stop := Some(time))] == map[ONLY := item.(stop := Some(time))];
  }

  const CAPTURE := Capture(0, 9, 8, 1, 0, 0, 0, 0, true, true, true, false, false, 0)

  /** A process, device, context and queue that start one after the other. */
  lemma FourBirths() returns (events: seq<Event>)
    ensures Run(events, CAPTURE, ONLY) ==
            Ok(Graph(One(Item(ONLY, NONE, NONE, 1, None)), One(Item(ONLY, NONE, NONE, 2, None)),
                     One(Item(ONLY, ONLY, NONE, 3, None)), One(Item(ONLY, ONLY, NONE, 4, None)), 4, 4))
  {
    hide Start;
    StartOne(Item(ONLY, NONE, NONE, 1, None));
    StartOne(Item(ONLY, NONE, NONE, 2, None));
    StartOne(Item(ONLY, ONLY, NONE, 3, None));
    StartOne(Item(ONLY, ONLY, NONE, 4, None));
    RunAppend([], ProcessStart(1, ONLY, NONE), CAPTURE, ONLY);
    events := [] + [ProcessStart(1, ONLY, NONE)];
    RunAppend(events, DeviceStart(2, ONLY, ONLY), CAPTURE, ONLY);
    events := events + [DeviceStart(2, ONLY, ONLY)];
    RunAppend(events, ContextStart(3, ONLY, ONLY, NONE), CAPTURE, ONLY);
    events := events + [ContextStart(3, ONLY, ONLY, NONE)];
    RunAppend(events, QueueStart(4, ONLY, ONLY, NONE), CAPTURE, ONLY);
    events := events + [QueueStart(4, ONLY, ONLY, NONE)];
  }

  lemma QueueStops() returns (events: seq<Event>)
    ensures Run(events, CAPTURE, ONLY) ==
            Ok(Graph(One(Item(ONLY, NONE, NONE, 1, None)), One(Item(ONLY, NONE, NONE, 2, None)),
                     One(Item(ONLY, ONLY, NONE, 3, None)), One(Item(ONLY, ONLY, NONE, 4, Some(5))), 5, 5))
  {
    hide Stop;
    events := FourBirths();
    StopOne(Item(ONLY, ONLY, NONE, 4, None), 5);
    RunAppend(events, QueueStop(5, ONLY, ONLY, NONE), CAPTURE, ONLY);
    events := events + [QueueStop(5, ONLY, ONLY, NONE)];
  }

  lemma ContextStops() returns (events: seq<Event>)
    ensures Run(events, CAPTURE, ONLY) ==
            Ok(Graph(One(Item(ONLY, NONE, NONE, 1, None)), One(Item(ONLY, NONE, NONE, 2, None)),
                     One(Item(ONLY, ONLY, NONE, 3, Some(6))), One(Item(ONLY, ONLY, NONE, 4, Some(5))), 6, 6))
  {
    hide Stop;
    events := QueueStops();
    StopOne(Item(ONLY, ONLY, NONE, 3, None), 6);
    RunAppend(events, ContextStop(6, ONLY, ONLY, NONE), CAPTURE, ONLY);
    events := events + [ContextStop(6, ONLY, ONLY, NONE)];
  }

  lemma ProcessThenDeviceStop() returns (events: seq<Event>)
    ensures Run(events, CAPTURE, ONLY) ==
            Ok(Graph(One(Item(ONLY, NONE, NONE, 1, Some(7))), One(Item(ONLY, NONE, NONE, 2, Some(8))),
                     One(Item(ONLY, ONLY, NONE, 3, Some(6))), One(Item(ONLY, ONLY, NONE, 4, Some(5))), 8, 8))
  {
    hide Stop;
    events := ContextStops();
    StopOne(Item(ONLY, NONE, NONE, 1, None), 7);
    StopOne(Item(ONLY, NONE, NONE, 2, None), 8);
    RunAppend(events, ProcessStop(7, ONLY, 0), CAPTURE, ONLY);
    events := events + [ProcessStop(7, ONLY, 0)];
    RunAppend(events, DeviceStop(8, ONLY, ONLY), CAPTURE, ONLY);
    events := events + [DeviceStop(8, ONLY, ONLY)];
  }

  /** Such late stops are accepted: in this balanced run the device outlives its process. */
  lemma DeviceMayOutliveProcess() returns (events: seq<Event>)
    ensures var r := Run(events, CAPTURE, ONLY);
            && r.Ok? && Balanced(r.value, ONLY)
            && ONLY in r.value.devices.objects && ONLY in r.value.processes.objects
            && r.value.devices.objects[ONLY].owner == ONLY
            && !Within(r.value.devices.objects[ONLY], r.value.processes.objects[ONLY])
  {
    events := ProcessThenDeviceStop();
    var g := Run(events, CAPTURE, ONLY).value;
    hide Run;
    assert ONLY in g.devices.objects && ONLY in g.contexts.objects && ONLY in g.queues.objects;
  }
}
