/** The explicit-stream vector-clock model of python/xvram/compat_audit_proof.py.

    `Step` gives the meaning of every public operation on plain values. What the clocks
    mean is proved in OrderProofs; the mutable object is in DeviceOrderObject. */
module OrderModel {
  import opened Options

  type Key = (nat, nat)
  type Clock = map<Key, nat>
  datatype Token = Token(event: Key, record: nat)

  const LIMIT: nat := 100_000
  const STREAM_LIMIT: nat := 64
  const CLOCK_LIMIT: nat := 1_000_000
  const U64: nat := 0xffff_ffff_ffff_ffff

  datatype Fault =
    | BadIdentity | ClosedOrPoisoned | StateLimit | StreamLimit | LifetimeGeneration
    | StaleStream | StaleEvent | StaleEventRecord | ClockLimit
    | EventQueryFailure | StreamSyncFailure | ContextSyncFailure | StreamStillInUse

  datatype Outcome = Done | NewNode(node: nat) | NewRecord(token: Token) | Rejected(fault: Fault)

  datatype Report = Success | NotReady | Failure

  datatype Op =
    | CreateStream(key: Key)
    | CreateEvent(key: Key)
    | Submit(stream: Key)
    | Record(event: Key, stream: Key)
    | Wait(stream: Key, token: Token)
    | Query(token: Token, report: Report)
    | DestroyEvent(key: Key)
    | SynchronizeStream(key: Key, report: Report)
    | InheritHostRetirements(key: Key)
    | SynchronizeContext(report: Report)
    | DestroyStream(key: Key)
    | SealSubmissions

  /** `order` is the insertion order of the `streams` dictionary, which is the order
      in which a context synchronization visits it. Node number i is nodes[i-1]. */
  datatype State = State(
    streams: map<Key, Clock>,
    order: seq<Key>,
    streamGenerations: map<nat, nat>,
    events: map<Key, nat>,
    eventGenerations: map<nat, nat>,
    records: map<Token, Clock>,
    nodes: seq<Clock>,
    completed: Clock,
    clockEntries: nat,
    sealed: bool,
    poisoned: bool)

  const INITIAL := State(map[], [], map[], map[], map[], map[], [], map[], 0, false, false)

  function Get<K>(m: map<K, nat>, k: K): nat {
    if k in m then m[k] else 0
  }

  function Join(c: Clock, d: Clock): Clock {
    map k | k in c.Keys + d.Keys :: if Get(c, k) < Get(d, k) then Get(d, k) else Get(c, k)
  }

  /** Every component of c is within d. */
  predicate Within(c: Clock, d: Clock) {
    forall k :: k in c ==> c[k] <= Get(d, k)
  }

  /** The join of c with the clocks of the streams listed in `order`. */
  function JoinAll(c: Clock, streams: map<Key, Clock>, order: seq<Key>): Clock {
    if order == [] then c
    else
      var init, last := order[..|order| - 1], order[|order| - 1];
      Join(JoinAll(c, streams, init), if last in streams then streams[last] else map[])
  }

  function Tick(c: Clock, stream: Key): Clock {
    c[stream := Get(c, stream) + 1]
  }

  predicate PositiveWord(n: nat) {
    1 <= n <= U64
  }

  predicate ValidKey(k: Key) {
    PositiveWord(k.0) && PositiveWord(k.1)
  }

  predicate ValidToken(t: Token) {
    ValidKey(t.event) && PositiveWord(t.record)
  }

  function Size(s: State): nat {
    |s.records| + |s.nodes| + |s.streamGenerations| + |s.eventGenerations|
  }

  /** The operations that are refused once submissions are sealed. */
  predicate IsSubmission(op: Op) {
    op.CreateStream? || op.CreateEvent? || op.Submit? || op.Record? || op.Wait?
    || op.InheritHostRetirements? || op.SealSubmissions?
  }

  function AdmitFault(s: State, submission: bool): Option<Fault> {
    if s.poisoned || (s.sealed && submission) then Some(ClosedOrPoisoned)
    else if submission && Size(s) >= LIMIT then Some(StateLimit)
    else None
  }

  function NewKeyFault(key: Key, generations: map<nat, nat>, live: set<Key>): Option<Fault> {
    if !ValidKey(key) then Some(BadIdentity)
    else if key.1 != Get(generations, key.0) + 1 || exists k :: k in live && k.0 == key.0
    then Some(LifetimeGeneration)
    else None
  }

  function SubmitCost(c: Clock, stream: Key): nat {
    |c| + if stream in c then 0 else 1
  }

  function SubmitFault(s: State, stream: Key): Option<Fault> {
    if !ValidKey(stream) then Some(BadIdentity)
    else if stream !in s.streams then Some(StaleStream)
    else if s.clockEntries + SubmitCost(s.streams[stream], stream) > CLOCK_LIMIT then Some(ClockLimit)
    else None
  }

  function RecordFault(s: State, t: Token): Option<Fault> {
    if !ValidToken(t) then Some(BadIdentity)
    else if t !in s.records || t.event !in s.events || s.events[t.event] != t.record
    then Some(StaleEventRecord)
    else None
  }

  function WaitCost(c: Clock, snapshot: Clock, stream: Key): nat {
    |c.Keys + snapshot.Keys + {stream}|
  }

  /** The first check that refuses `op`, if any. */
  function FaultOf(s: State, op: Op): Option<Fault> {
    var admit := AdmitFault(s, IsSubmission(op));
    if admit.Some? then admit
    else match op
      case CreateStream(key) =>
        if |s.streamGenerations| >= STREAM_LIMIT then Some(StreamLimit)
        else NewKeyFault(key, s.streamGenerations, s.streams.Keys)
      case CreateEvent(key) => NewKeyFault(key, s.eventGenerations, s.events.Keys)
      case Submit(stream) => SubmitFault(s, stream)
      case Record(event, stream) =>
        if !ValidKey(event) then Some(BadIdentity)
        else if event !in s.events then Some(StaleEvent)
        else SubmitFault(s, stream)
      case Wait(stream, token) =>
        if !ValidKey(stream) then Some(BadIdentity)
        else if RecordFault(s, token).Some? then RecordFault(s, token)
        else if stream !in s.streams then Some(StaleStream)
        else if s.clockEntries + WaitCost(s.streams[stream], s.records[token], stream) > CLOCK_LIMIT
        then Some(ClockLimit)
        else None
      case Query(token, report) =>
        if RecordFault(s, token).Some? then RecordFault(s, token)
        else if report == Failure then Some(EventQueryFailure)
        else None
      case DestroyEvent(key) =>
        if !ValidKey(key) then Some(BadIdentity)
        else if key !in s.events then Some(StaleEvent)
        else None
      case SynchronizeStream(key, report) =>
        if !ValidKey(key) then Some(BadIdentity)
        else if key !in s.streams || report != Success then Some(StreamSyncFailure)
        else None
      case InheritHostRetirements(key) =>
        if !ValidKey(key) then Some(BadIdentity)
        else if key !in s.streams then Some(StaleStream)
        else None
      case SynchronizeContext(report) =>
        if report != Success then Some(ContextSyncFailure) else None
      case DestroyStream(key) =>
        if !ValidKey(key) then Some(BadIdentity)
        else if key !in s.streams then Some(StaleStream)
        else if !Within(s.streams[key], s.completed) then Some(StreamStillInUse)
        else None
      case SealSubmissions => None
  }

  /** The rejections that also poison the model. */
  predicate Poisons(s: State, op: Op, fault: Fault) {
    || (fault == ClosedOrPoisoned && s.sealed && IsSubmission(op))
    || fault == EventQueryFailure || fault == StreamSyncFailure || fault == ContextSyncFailure
  }

  /** A node submitted on a stream whose clock, after any merge, is `clock`. */
  function AfterSubmit(s: State, stream: Key, clock: Clock): State {
    s.(streams := s.streams[stream := Tick(clock, stream)],
       nodes := s.nodes + [Tick(clock, stream)],
       clockEntries := s.clockEntries + SubmitCost(clock, stream))
  }

  function AfterRecord(s: State, event: Key, stream: Key): State
    requires stream in s.streams && event in s.events
  {
    var t := AfterSubmit(s, stream, s.streams[stream]);
    var generation := s.events[event] + 1;
    t.(events := s.events[event := generation],
       records := s.records[Token(event, generation) := t.nodes[|s.nodes|]])
  }

  function Remove(order: seq<Key>, key: Key): seq<Key> {
    if order == [] then []
    else if order[0] == key then order[1..]
    else [order[0]] + Remove(order[1..], key)
  }

  /** The effect of an accepted operation. */
  function Apply(s: State, op: Op): State
    requires FaultOf(s, op).None?
  {
    match op
    case CreateStream(key) =>
      s.(streams := s.streams[key := map[]], order := s.order + [key],
         streamGenerations := s.streamGenerations[key.0 := key.1])
    case CreateEvent(key) =>
      s.(events := s.events[key := 0], eventGenerations := s.eventGenerations[key.0 := key.1])
    case Submit(stream) => AfterSubmit(s, stream, s.streams[stream])
    case Record(event, stream) =>
      AfterRecord(s, event, stream)
    case Wait(stream, token) =>
      AfterSubmit(s, stream, Join(s.streams[stream], s.records[token]))
    case Query(token, report) =>
      if report == Success then s.(completed := Join(s.completed, s.records[token])) else s
    case DestroyEvent(key) => s.(events := s.events - {key})
    case SynchronizeStream(key, _) => s.(completed := Join(s.completed, s.streams[key]))
    case InheritHostRetirements(key) =>
      s.(streams := s.streams[key := Join(s.streams[key], s.completed)])
    case SynchronizeContext(_) => s.(completed := JoinAll(s.completed, s.streams, s.order))
    case DestroyStream(key) => s.(streams := s.streams - {key}, order := Remove(s.order, key))
    case SealSubmissions => s.(sealed := true)
  }

  function Answer(s: State, op: Op): Outcome
    requires FaultOf(s, op).None?
  {
    match op
    case Submit(_) => NewNode(|s.nodes| + 1)
    case Wait(_, _) => NewNode(|s.nodes| + 1)
    case Record(event, _) => NewRecord(Token(event, s.events[event] + 1))
    case _ => Done
  }

  function Step(s: State, op: Op): (State, Outcome) {
    var fault := FaultOf(s, op);
    if fault.Some?
    then (s.(poisoned := s.poisoned || Poisons(s, op, fault.value)), Rejected(fault.value))
    else (Apply(s, op), Answer(s, op))
  }

  predicate KnownNode(s: State, node: nat) {
    1 <= node <= |s.nodes|
  }

  function Precedes(s: State, before: nat, after: nat): Option<bool> {
    if KnownNode(s, before) && KnownNode(s, after)
    then Some(Within(s.nodes[before - 1], s.nodes[after - 1])) else None
  }

  function Retired(s: State, node: nat): Option<bool> {
    if KnownNode(s, node)
    then Some(!s.poisoned && Within(s.nodes[node - 1], s.completed)) else None
  }
}
