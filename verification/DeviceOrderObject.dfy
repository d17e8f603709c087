/** The mutable DeviceOrder object. `log` is the history of calls; `Valid` says the
    fields are what `Run` makes of that history, so every theorem of
    OrderProofs speaks about the object. */
module DeviceOrderObject {
  import opened Options
  import opened OrderModel
  import opened OrderProofs
  import H = OrderHistory
  import A = OrderAcceptance

  /** The listed streams are those of the table, and their keys are well formed. */
  ghost predicate StreamsValid(s: State) {
    && (forall k :: k in s.streams ==> ValidKey(k))
    && (forall k :: k in s.order <==> k in s.streams)
  }

  lemma {:induction false} RunKeysValid(ops: seq<Op>)
    ensures StreamsValid(Run(ops).0)
  {
    if ops != [] {
      var init, op := ops[..|ops| - 1], ops[|ops| - 1];
      RunKeysValid(init);
      StepKeysValid(Run(init).0, op);
      RunKeepsInv(ops);
      InvParts(Run(ops).0, Run(ops).1);
      hide Inv, NodesCovered, StreamsCovered, RecordsCovered, Covers, Accounted, Generations, Bounded, Step, Track;
    }
  }

  lemma StepKeysValid(s: State, op: Op)
    requires forall k :: k in s.streams ==> ValidKey(k)
    ensures forall k :: k in Step(s, op).0.streams ==> ValidKey(k)
  {
    hide Join, JoinAll, Tick, Remove;
  }

  /** A wait's own cost test already covers the submission made inside it. */
  lemma WaitCostIsSubmitCost(c: Clock, snapshot: Clock, stream: Key)
    ensures WaitCost(c, snapshot, stream) == SubmitCost(Join(c, snapshot), stream)
  {
    var j := Join(c, snapshot);
    assert j.Keys == c.Keys + snapshot.Keys;
    assert |j| == |j.Keys|;
    if stream in j {
      assert c.Keys + snapshot.Keys + {stream} == j.Keys;
    }
  }

  lemma SubmitAfterMerge(s: State, stream: Key, merged: Clock, clock: Clock)
    ensures AfterSubmit(s.(streams := s.streams[stream := merged]), stream, clock) == AfterSubmit(s, stream, clock)
  {
    assert s.streams[stream := merged][stream := Tick(clock, stream)] == s.streams[stream := Tick(clock, stream)];
  }

  /** Raises c to at least d, entry by entry, in whatever order the entries come. */
  method Raise(c: Clock, d: Clock) returns (r: Clock)
    ensures r == Join(c, d)
  {
    r := c;
    var todo := d.Keys;
    while todo != {}
      invariant todo <= d.Keys && r.Keys == c.Keys + (d.Keys - todo)
      invariant forall k :: k in r ==> r[k] == if k in todo then c[k] else Join(c, d)[k]
    {
      var k :| k in todo;
      r := r[k := if Get(r, k) < d[k] then d[k] else Get(r, k)];
      todo := todo - {k};
    }
  }

  /** What a submission answers. */
  function AddOutcome(s: State, stream: Key): Outcome {
    if AdmitFault(s, true).Some? then Rejected(AdmitFault(s, true).value)
    else if SubmitFault(s, stream).Some? then Rejected(SubmitFault(s, stream).value)
    else NewNode(|s.nodes| + 1)
  }

  class DeviceOrder {
    var streams: map<Key, Clock>
    var order: seq<Key>
    var streamGenerations: map<nat, nat>
    var events: map<Key, nat>
    var eventGenerations: map<nat, nat>
    var records: map<Token, Clock>
    var nodes: seq<Clock>
    var completed: Clock
    var clockEntries: nat
    var sealed: bool
    var poisoned: bool
    ghost var log: seq<Op>

    function Abs(): State
      reads `streams, `order, `streamGenerations, `events, `eventGenerations, `records, `nodes,
            `completed, `clockEntries, `sealed, `poisoned
    {
      State(streams, order, streamGenerations, events, eventGenerations, records, nodes,
            completed, clockEntries, sealed, poisoned)
    }

    ghost predicate Valid()
      reads this
    {
      Abs() == Run(log).0
    }

    constructor ()
      ensures Valid() && log == []
    {
      streams, order, streamGenerations := map[], [], map[];
      events, eventGenerations, records := map[], map[], map[];
      nodes, completed, clockEntries := [], map[], 0;
      sealed, poisoned, log := false, false, [];
    }

    method Admit(submission: bool) returns (r: Option<Fault>)
      modifies this`poisoned
      ensures r == AdmitFault(old(Abs()), submission)
      ensures poisoned == (old(poisoned) || (sealed && submission))
      ensures if poisoned then r == Some(ClosedOrPoisoned) else r == None || r == Some(StateLimit)
    {
      if sealed && submission { poisoned := true; }
      if poisoned { return Some(ClosedOrPoisoned); }
      if submission && |records| + |nodes| + |streamGenerations| + |eventGenerations| >= LIMIT {
        return Some(StateLimit);
      }
      r := None;
    }

    method CreateStream(key: Key) returns (r: Outcome)
      requires Valid()
      modifies this
      ensures Valid() && log == old(log) + [Op.CreateStream(key)]
      ensures r == Step(old(Abs()), Op.CreateStream(key)).1
    {
      hide Run, Track, Join, JoinAll, Within, Tick, SubmitCost, SubmitFault, RecordFault, WaitCost,
           Remove, AfterSubmit, AfterRecord, Size, ValidToken, AdmitFault;
      ghost var op := Op.CreateStream(key);
      RunOneMore(log, op);
      log := log + [op];
      var fault := Admit(true);
      if fault.Some? { return Rejected(fault.value); }
      if |streamGenerations| >= STREAM_LIMIT { return Rejected(StreamLimit); }
      fault := NewKeyFault(key, streamGenerations, streams.Keys);
      if fault.Some? { return Rejected(fault.value); }
      streamGenerations := streamGenerations[key.0 := key.1];
      streams := streams[key := map[]];
      order := order + [key];
      r := Done;
    }

    method CreateEvent(key: Key) returns (r: Outcome)
      requires Valid()
      modifies this
      ensures Valid() && log == old(log) + [Op.CreateEvent(key)]
      ensures r == Step(old(Abs()), Op.CreateEvent(key)).1
    {
      hide Run, Track, Join, JoinAll, Within, Tick, SubmitCost, SubmitFault, RecordFault, WaitCost,
           Remove, AfterSubmit, AfterRecord, Size, ValidToken, AdmitFault;
      ghost var op := Op.CreateEvent(key);
      RunOneMore(log, op);
      log := log + [op];
      var fault := Admit(true);
      if fault.Some? { return Rejected(fault.value); }
      fault := NewKeyFault(key, eventGenerations, events.Keys);
      if fault.Some? { return Rejected(fault.value); }
      eventGenerations := eventGenerations[key.0 := key.1];
      events := events[key := 0];
      r := Done;
    }

    /** The body of submit, which record and wait share. */
    method AddNode(stream: Key) returns (r: Outcome)
      modifies this`streams, this`nodes, this`clockEntries, this`poisoned
      ensures r == AddOutcome(old(Abs()), stream)
      ensures Abs() == if r.Rejected? then old(Abs()).(poisoned := old(poisoned) || sealed)
                       else AfterSubmit(old(Abs()), stream, old(streams[stream]))
    {
      hide Join, JoinAll, Within, NewKeyFault, RecordFault, WaitCost, Remove, AfterRecord, ValidToken,
           AdmitFault;
      var fault := Admit(true);
      if fault.Some? { return Rejected(fault.value); }
      if !ValidKey(stream) { return Rejected(BadIdentity); }
      if stream !in streams { return Rejected(StaleStream); }
      var clock := streams[stream];
      var cost := |clock| + if stream in clock then 0 else 1;
      if clockEntries + cost > CLOCK_LIMIT { return Rejected(ClockLimit); }
      clock := clock[stream := Get(clock, stream) + 1];
      streams := streams[stream := clock];
      nodes := nodes + [clock];
      clockEntries := clockEntries + cost;
      r := NewNode(|nodes|);
    }

    method Submit(stream: Key) returns (r: Outcome)
      requires Valid()
      modifies this
      ensures Valid() && log == old(log) + [Op.Submit(stream)]
      ensures r == Step(old(Abs()), Op.Submit(stream)).1
    {
      hide Run, Track, Join, JoinAll, Within, Tick, NewKeyFault, SubmitCost, RecordFault, WaitCost,
           Remove, AfterSubmit, AfterRecord, Size, ValidKey, ValidToken;
      RunOneMore(log, Op.Submit(stream));
      log := log + [Op.Submit(stream)];
      r := AddNode(stream);
    }

    /** Names the newest node as the event's next record. */
    method NameRecord(event: Key) returns (token: Token)
      requires event in events && nodes != []
      modifies this`events, this`records
      ensures token == Token(event, old(events[event]) + 1)
      ensures Abs() == old(Abs()).(events := old(events)[event := token.record],
                                   records := old(records)[token := old(nodes[|nodes| - 1])])
    {
      var generation := events[event] + 1;
      events := events[event := generation];
      token := Token(event, generation);
      records := records[token := nodes[|nodes| - 1]];
    }

    method RecordNode(event: Key, stream: Key) returns (r: Outcome)
      modifies this`streams, this`nodes, this`clockEntries, this`poisoned, this`events, this`records
      ensures (Abs(), r) == Step(old(Abs()), Op.Record(event, stream))
    {
      hide Join, JoinAll, Within, NewKeyFault, SubmitCost, RecordFault, WaitCost, Remove, Size, ValidToken;
      var fault := Admit(true);
      if fault.Some? { return Rejected(fault.value); }
      if !ValidKey(event) { return Rejected(BadIdentity); }
      if event !in events { return Rejected(StaleEvent); }
      r := AddNode(stream);
      if r.Rejected? { return; }
      var token := NameRecord(event);
      r := NewRecord(token);
    }

    method Record(event: Key, stream: Key) returns (r: Outcome)
      requires Valid()
      modifies this
      ensures Valid() && log == old(log) + [Op.Record(event, stream)]
      ensures r == Step(old(Abs()), Op.Record(event, stream)).1
    {
      hide Run, Track, Step;
      RunOneMore(log, Op.Record(event, stream));
      log := log + [Op.Record(event, stream)];
      r := RecordNode(event, stream);
    }

    /** The merge and the submission of a wait whose checks have passed. */
    method MergeNode(stream: Key, snapshot: Clock) returns (r: Outcome)
      requires AdmitFault(Abs(), true).None? && ValidKey(stream) && stream in streams
      requires clockEntries + WaitCost(streams[stream], snapshot, stream) <= CLOCK_LIMIT
      modifies this`streams, this`nodes, this`clockEntries, this`poisoned
      ensures r == NewNode(|old(nodes)| + 1)
      ensures Abs() == AfterSubmit(old(Abs()), stream, Join(old(streams[stream]), snapshot))
    {
      hide Join, AfterSubmit, WaitCost, SubmitCost;
      WaitCostIsSubmitCost(streams[stream], snapshot, stream);
      var merged := Raise(streams[stream], snapshot);
      SubmitAfterMerge(Abs(), stream, merged, merged);
      streams := streams[stream := merged];
      r := AddNode(stream);
    }

    /** The merge into the stream's clock is never left behind by a refused submission. */
    method WaitNode(stream: Key, token: Token) returns (r: Outcome)
      modifies this`streams, this`nodes, this`clockEntries, this`poisoned
      ensures (Abs(), r) == Step(old(Abs()), Op.Wait(stream, token))
    {
      hide Join, AfterSubmit, WaitCost, SubmitCost, JoinAll, Within, Tick, NewKeyFault, Remove, AfterRecord,
           AdmitFault;
      var fault := Admit(true);
      if fault.Some? { return Rejected(fault.value); }
      if !ValidKey(stream) { return Rejected(BadIdentity); }
      fault := RecordFault(Abs(), token);
      if fault.Some? { return Rejected(fault.value); }
      if stream !in streams { return Rejected(StaleStream); }
      var cost := WaitCost(streams[stream], records[token], stream);
      if clockEntries + cost > CLOCK_LIMIT { return Rejected(ClockLimit); }
      r := MergeNode(stream, records[token]);
    }

    /** Accepted exactly on the last record of an event that lives, for a live stream within the
        limits. */
    method Wait(stream: Key, token: Token) returns (r: Outcome)
      requires Valid()
      modifies this
      ensures Valid() && log == old(log) + [Op.Wait(stream, token)]
      ensures r == Step(old(Abs()), Op.Wait(stream, token)).1
      ensures !r.Rejected? <==> A.Admissible(H.Told(old(log)), Run(old(log)).1, Op.Wait(stream, token))
      ensures !r.Rejected? ==> A.IsLastRecord(old(log), token) && A.StreamLives(old(log), stream)
    {
      hide Run, Track, Step, H.Told, A.Admissible, A.IsLastRecord, A.StreamLives;
      RunOneMore(log, Op.Wait(stream, token));
      A.AcceptedExactly(log, Op.Wait(stream, token));
      A.WaitExact(log, stream, token);
      log := log + [Op.Wait(stream, token)];
      r := WaitNode(stream, token);
    }

    method QueryRecord(token: Token, report: Report) returns (r: Outcome)
      modifies this`completed, this`poisoned
      ensures (Abs(), r) == Step(old(Abs()), Op.Query(token, report))
    {
      hide Join, JoinAll, Within, Tick, NewKeyFault, SubmitCost, SubmitFault, WaitCost, Remove, AfterSubmit,
           AfterRecord, Size, ValidKey, ValidToken, AdmitFault;
      var fault := Admit(false);
      if fault.Some? { return Rejected(fault.value); }
      fault := RecordFault(Abs(), token);
      if fault.Some? { return Rejected(fault.value); }
      if report != Success && report != NotReady {
        poisoned := true;
        return Rejected(EventQueryFailure);
      }
      if report == Success { completed := Raise(completed, records[token]); }
      r := Done;
    }

    /** Accepted exactly on the last record of an event that lives, unless the device failed. */
    method Query(token: Token, report: Report) returns (r: Outcome)
      requires Valid()
      modifies this
      ensures Valid() && log == old(log) + [Op.Query(token, report)]
      ensures r == Step(old(Abs()), Op.Query(token, report)).1
      ensures !r.Rejected? <==>
              !H.Told(old(log)).poisoned && report != Failure && ValidToken(token) && A.IsLastRecord(old(log), token)
    {
      hide Run, Track, Step, H.Told, A.IsLastRecord, ValidToken;
      RunOneMore(log, Op.Query(token, report));
      A.QueryExact(log, token, report);
      log := log + [Op.Query(token, report)];
      r := QueryRecord(token, report);
    }

    method DestroyEvent(key: Key) returns (r: Outcome)
      requires Valid()
      modifies this
      ensures Valid() && log == old(log) + [Op.DestroyEvent(key)]
      ensures r == Step(old(Abs()), Op.DestroyEvent(key)).1
    {
      hide Run, Track, Join, JoinAll, Within, Tick, NewKeyFault, SubmitCost, SubmitFault, RecordFault,
           WaitCost, Remove, AfterSubmit, AfterRecord, Size, ValidToken, AdmitFault;
      RunOneMore(log, Op.DestroyEvent(key));
      log := log + [Op.DestroyEvent(key)];
      var fault := Admit(false);
      if fault.Some? { return Rejected(fault.value); }
      if !ValidKey(key) { return Rejected(BadIdentity); }
      if key !in events { return Rejected(StaleEvent); }
      events := events - {key};
      r := Done;
    }

    /** The body of synchronize_stream, which synchronize_context repeats per stream. */
    method Complete(key: Key, report: Report) returns (r: Outcome)
      modifies this`completed, this`poisoned
      ensures (Abs(), r) == Step(old(Abs()), Op.SynchronizeStream(key, report))
      ensures !old(poisoned) && ValidKey(key) && key in streams && report == Success ==>
                r == Done && !poisoned && completed == Join(old(completed), streams[key])
    {
      hide Join, JoinAll, Within, Tick, NewKeyFault, SubmitCost, SubmitFault, RecordFault, WaitCost,
           Remove, AfterSubmit, AfterRecord, Size, ValidToken;
      var fault := Admit(false);
      if fault.Some? { return Rejected(fault.value); }
      if !ValidKey(key) { return Rejected(BadIdentity); }
      if key !in streams || report != Success {
        poisoned := true;
        return Rejected(StreamSyncFailure);
      }
      completed := Raise(completed, streams[key]);
      r := Done;
    }

    method SynchronizeStream(key: Key, report: Report) returns (r: Outcome)
      requires Valid()
      modifies this
      ensures Valid() && log == old(log) + [Op.SynchronizeStream(key, report)]
      ensures r == Step(old(Abs()), Op.SynchronizeStream(key, report)).1
    {
      hide Run, Track, Join;
      RunOneMore(log, Op.SynchronizeStream(key, report));
      log := log + [Op.SynchronizeStream(key, report)];
      r := Complete(key, report);
    }

    method InheritHostRetirements(key: Key) returns (r: Outcome)
      requires Valid()
      modifies this
      ensures Valid() && log == old(log) + [Op.InheritHostRetirements(key)]
      ensures r == Step(old(Abs()), Op.InheritHostRetirements(key)).1
    {
      hide Run, Track, Join, JoinAll, Within, Tick, NewKeyFault, SubmitCost, SubmitFault, RecordFault,
           WaitCost, Remove, AfterSubmit, AfterRecord, Size, ValidToken, AdmitFault;
      RunOneMore(log, Op.InheritHostRetirements(key));
      log := log + [Op.InheritHostRetirements(key)];
      var fault := Admit(true);
      if fault.Some? { return Rejected(fault.value); }
      if !ValidKey(key) { return Rejected(BadIdentity); }
      if key !in streams { return Rejected(StaleStream); }
      var merged := Raise(streams[key], completed);
      streams := streams[key := merged];
      r := Done;
    }

    /** No stream in the loop is refused, so a context synchronization is all or nothing. */
    method CompleteStreams()
      requires !poisoned && StreamsValid(Abs())
      modifies this`completed, this`poisoned
      ensures !poisoned && completed == JoinAll(old(completed), streams, order)
    {
      hide Join, Step, ValidKey;
      for i := 0 to |order|
        invariant !poisoned && completed == JoinAll(old(completed), streams, order[..i])
      {
        var ok := Complete(order[i], Success);
        assert order[..i + 1][..i] == order[..i];
      }
      assert order[..|order|] == order;
    }

    method CompleteAll(report: Report) returns (r: Outcome)
      requires StreamsValid(Abs())
      modifies this`completed, this`poisoned
      ensures (Abs(), r) == Step(old(Abs()), Op.SynchronizeContext(report))
    {
      hide Join, JoinAll, Within, Tick, NewKeyFault, SubmitFault, RecordFault, WaitCost, Remove, AfterSubmit,
           AfterRecord, ValidKey, ValidToken, StreamsValid;
      var fault := Admit(false);
      if fault.Some? { return Rejected(fault.value); }
      if report != Success {
        poisoned := true;
        return Rejected(ContextSyncFailure);
      }
      CompleteStreams();
      r := Done;
    }

    method SynchronizeContext(report: Report) returns (r: Outcome)
      requires Valid()
      modifies this
      ensures Valid() && log == old(log) + [Op.SynchronizeContext(report)]
      ensures r == Step(old(Abs()), Op.SynchronizeContext(report)).1
    {
      hide Run, Track, Step, Abs;
      RunKeysValid(log);
      RunOneMore(log, Op.SynchronizeContext(report));
      log := log + [Op.SynchronizeContext(report)];
      r := CompleteAll(report);
    }

    method DestroyStream(key: Key) returns (r: Outcome)
      requires Valid()
      modifies this
      ensures Valid() && log == old(log) + [Op.DestroyStream(key)]
      ensures r == Step(old(Abs()), Op.DestroyStream(key)).1
    {
      hide Run, Track, Join, Remove, Within, JoinAll, Tick, NewKeyFault, SubmitCost, SubmitFault,
           RecordFault, WaitCost, AfterSubmit, AfterRecord, Size, ValidToken, AdmitFault;
      RunOneMore(log, Op.DestroyStream(key));
      log := log + [Op.DestroyStream(key)];
      var fault := Admit(false);
      if fault.Some? { return Rejected(fault.value); }
      if !ValidKey(key) { return Rejected(BadIdentity); }
      if key !in streams { return Rejected(StaleStream); }
      if !Within(streams[key], completed) { return Rejected(StreamStillInUse); }
      streams := streams - {key};
      order := Remove(order, key);
      r := Done;
    }

    method SealSubmissions() returns (r: Outcome)
      requires Valid()
      modifies this
      ensures Valid() && log == old(log) + [Op.SealSubmissions]
      ensures r == Step(old(Abs()), Op.SealSubmissions).1
    {
      hide Run, Track, Join, JoinAll, Within, Tick, NewKeyFault, SubmitCost, SubmitFault, RecordFault,
           WaitCost, Remove, AfterSubmit, AfterRecord, Size, ValidKey, ValidToken, AdmitFault;
      RunOneMore(log, Op.SealSubmissions);
      log := log + [Op.SealSubmissions];
      var fault := Admit(true);
      if fault.Some? { return Rejected(fault.value); }
      sealed := true;
      r := Done;
    }

    /** The clock comparison answers reachability in the graph of the object's history. */
    method Precedes(before: nat, after: nat) returns (r: Option<bool>)
      requires Valid()
      ensures r == if KnownNode(Abs(), before) && KnownNode(Abs(), after)
                   then Some(Reaches(Run(log).1.preds, before - 1, after - 1)) else None
    {
      PrecedesIsReachability(log, before, after);
      if !(1 <= before <= |nodes| && 1 <= after <= |nodes|) { return None; }
      var a, b := nodes[before - 1], nodes[after - 1];
      r := Some(forall k :: k in a ==> a[k] <= Get(b, k));
    }

    /** A node is retired when the object is not poisoned and the host has witnessed a node
        that it reaches. */
    method IsRetired(node: nat) returns (r: Option<bool>)
      requires Valid()
      ensures r == if KnownNode(Abs(), node)
                   then Some(!poisoned && ReachesAny(Run(log).1.preds, node - 1, Run(log).1.host)) else None
    {
      if !(1 <= node <= |nodes|) { return None; }
      RetiredIsWitnessed(log, node);
      var clock := nodes[node - 1];
      r := Some(!poisoned && forall k :: k in clock ==> clock[k] <= Get(completed, k));
    }

    ghost predicate Witnessed(node: nat)
      reads this
    {
      KnownNode(Abs(), node) && !poisoned && ReachesAny(Run(log).1.preds, node - 1, Run(log).1.host)
    }

    /** Users may be reused exactly when there are some, not too many, and all are retired. */
    method RequireRetired(users: seq<nat>) returns (ok: bool)
      requires Valid()
      ensures ok <==> 0 < |users| <= LIMIT && forall i :: 0 <= i < |users| ==> Witnessed(users[i])
    {
      hide Run, ReachesAny, Retired, AdmitFault;
      if users == [] || |users| > LIMIT { return false; }
      for i := 0 to |users|
        invariant forall j :: 0 <= j < i ==> Witnessed(users[j])
      {
        var retired := IsRetired(users[i]);
        if retired != Some(true) { return false; }
      }
      return true;
    }

    /** The terminal verdict: sealed, clean, and every node witnessed as complete. */
    method Terminal(facts: bool, dropped: nat, errors: nat) returns (r: bool)
      requires Valid()
      ensures r <==> sealed && !poisoned && nodes != [] && facts && dropped == 0 && errors == 0
                     && forall node: nat :: KnownNode(Abs(), node) ==>
                                       ReachesAny(Run(log).1.preds, node - 1, Run(log).1.host)
    {
      forall node: nat | KnownNode(Abs(), node)
        ensures Retired(Abs(), node) ==
                Some(!poisoned && ReachesAny(Run(log).1.preds, node - 1, Run(log).1.host))
      {
        RetiredIsWitnessed(log, node);
      }
      r := sealed && !poisoned && |nodes| > 0 && facts && dropped == 0 && errors == 0
           && forall node | 1 <= node <= |nodes| :: Retired(Abs(), node) == Some(true);
    }
  }
}
