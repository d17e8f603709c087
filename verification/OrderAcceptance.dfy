/** Exactly which calls the device order accepts, and what it answers, from the answers to
    the calls before and the happens-before graph. */
module OrderAcceptance {
  import opened Options
  import opened OrderModel
  import opened OrderProofs
  import opened OrderHistory

  // ---- the clock budget, without clocks ----

  /** The streams with a node from which one of `targets` is reachable. */
  ghost function Feeds(preds: seq<set<nat>>, owner: seq<Key>, targets: set<nat>): set<Key> {
    set a | 0 <= a < |owner| && ReachesAny(preds, a, targets) :: owner[a]
  }

  /** In how many ways a stream feeds one of the first n nodes. */
  ghost function Load(preds: seq<set<nat>>, owner: seq<Key>, n: nat): nat {
    if n == 0 then 0 else Load(preds, owner, n - 1) + |Feeds(preds, owner, {n - 1})|
  }

  /** A clock has a component for each stream that feeds what it covers. */
  lemma ClockKeys(h: History, c: Clock, targets: set<nat>)
    requires Shaped(h) && Covers(h, c, targets)
    ensures c.Keys == Feeds(h.preds, h.owner, targets) && |c| == |c.Keys|
  {
    forall k | k in c ensures k in Feeds(h.preds, h.owner, targets) {
      var a :| 0 <= a < |h.nodes| && h.owner[a] == k && Own(h, a) == c[k];
      assert ReachesAny(h.preds, a, targets);
    }
    forall k | k in Feeds(h.preds, h.owner, targets) ensures k in c {
      var a :| 0 <= a < |h.owner| && ReachesAny(h.preds, a, targets) && h.owner[a] == k;
      assert Own(h, a) > 0;
    }
  }

  lemma NodeKeys(h: History, i: nat)
    requires NodesCovered(h) && i < |h.nodes|
    ensures |h.nodes[i]| == |Feeds(h.preds, h.owner, {i})|
  {
    hide Covers, Feeds;
    ClockKeys(h, h.nodes[i], {i});
  }

  lemma OneMoreEntry(nodes: seq<Clock>, n: nat)
    requires n < |nodes|
    ensures Entries(nodes[..n + 1]) == Entries(nodes[..n]) + |nodes[n]|
  {
    assert nodes[..n + 1][..n] == nodes[..n];
  }

  lemma {:induction false} LoadIsEntries(h: History, n: nat)
    requires NodesCovered(h) && n <= |h.nodes|
    ensures Entries(h.nodes[..n]) == Load(h.preds, h.owner, n)
  {
    hide NodesCovered, Feeds, Entries;
    if n > 0 {
      LoadIsEntries(h, n - 1);
      NodeKeys(h, n - 1);
      OneMoreEntry(h.nodes, n - 1);
    } else {
      NoEntries(h.nodes[..0]);
    }
  }

  lemma NoEntries(nodes: seq<Clock>)
    requires nodes == []
    ensures Entries(nodes) == 0
  {
  }

  // ---- what is accepted ----

  ghost function Frontier(g: Graph, stream: Key): set<nat> {
    if stream in g.frontier then g.frontier[stream] else {}
  }

  ghost function Maker(g: Graph, token: Token): set<nat> {
    if token in g.recorder then {g.recorder[token]} else {}
  }

  /** A node of `stream` that follows `edges` stays within the million clock components. */
  ghost predicate Affordable(g: Graph, stream: Key, edges: set<nat>) {
    Load(g.preds, g.owner, |g.preds|) + |Feeds(g.preds, g.owner, edges) + {stream}| <= 1_000_000
  }

  predicate Current(l: Ledger, token: Token) {
    ValidToken(token) && token.event in l.current && l.current[token.event] == token
  }

  /** The key is the next generation of an identity of which nothing lives. */
  predicate Next(key: Key, ids: map<nat, nat>, live: set<Key>) {
    ValidKey(key) && key.1 == Get(ids, key.0) + 1 && forall k :: k in live ==> k.0 != key.0
  }

  predicate Open(l: Ledger, op: Op) {
    !l.poisoned
    && (Extends(op) ==> !l.sealed && |l.recorders| + |l.owners| + |l.streamIds| + |l.eventIds| < 100_000)
  }

  /** Every node of the stream is known to have finished. */
  ghost predicate Drained(l: Ledger, g: Graph, key: Key) {
    forall a :: 0 <= a < |l.owners| && l.owners[a] == key ==> ReachesAny(g.preds, a, g.host)
  }

  ghost predicate Admissible(l: Ledger, g: Graph, op: Op) {
    Open(l, op) &&
    match op
    case CreateStream(key) => |l.streamIds| < 64 && Next(key, l.streamIds, l.streams)
    case CreateEvent(key) => Next(key, l.eventIds, l.events)
    case Submit(stream) => ValidKey(stream) && stream in l.streams && Affordable(g, stream, Frontier(g, stream))
    case Record(event, stream) =>
      && ValidKey(event) && ValidKey(stream) && event in l.events && stream in l.streams
      && Affordable(g, stream, Frontier(g, stream))
    case Wait(stream, token) =>
      && ValidKey(stream) && stream in l.streams && Current(l, token)
      && Affordable(g, stream, Frontier(g, stream) + Maker(g, token))
    case Query(token, report) => Current(l, token) && report != Failure
    case DestroyEvent(key) => ValidKey(key) && key in l.events
    case SynchronizeStream(key, report) => ValidKey(key) && key in l.streams && report == Success
    case InheritHostRetirements(key) => ValidKey(key) && key in l.streams
    case SynchronizeContext(report) => report == Success
    case DestroyStream(key) => ValidKey(key) && key in l.streams && Drained(l, g, key)
    case SealSubmissions => true
  }

  function Reply(l: Ledger, op: Op): Outcome {
    match op
    case Submit(_) => NewNode(|l.owners| + 1)
    case Wait(_, _) => NewNode(|l.owners| + 1)
    case Record(event, _) => NewRecord(Token(event, Get(l.made, event) + 1))
    case _ => Done
  }

  // ---- the tests of the state, from the ledger ----

  lemma AdmittedExactly(s: State, g: Graph, l: Ledger, op: Op)
    requires Matches(s, g, l)
    ensures AdmitFault(s, IsSubmission(op)).None? <==> Open(l, op)
  {
    hide SameEvents, Entries;
    assert |s.records.Keys| == |s.records| && |l.recorders.Keys| == |l.recorders|;
  }

  lemma NextExactly(key: Key, ids: map<nat, nat>, live: set<Key>)
    ensures NewKeyFault(key, ids, live).None? <==> Next(key, ids, live)
  {
  }

  lemma CurrentExactly(s: State, g: Graph, l: Ledger, token: Token)
    requires Matches(s, g, l)
    ensures RecordFault(s, token).None? <==> Current(l, token)
  {
    hide Matches;
    if ValidToken(token) {
      CurrentRecords(s, g, l, token);
    }
  }

  lemma CurrentRecords(s: State, g: Graph, l: Ledger, token: Token)
    requires Matches(s, g, l) && token.record > 0
    ensures (token in s.records && token.event in s.events && s.events[token.event] == token.record) <==>
            (token.event in l.current && l.current[token.event] == token)
  {
    hide SameNodes;
  }

  /** The clock entries kept so far are the load of all nodes. */
  lemma KeptEntries(s: State, g: Graph, l: Ledger)
    requires Inv(s, g) && Matches(s, g, l)
    ensures |g.owner| == |g.preds| == |s.nodes| && l.owners == g.owner
    ensures s.clockEntries == Load(g.preds, g.owner, |g.preds|)
  {
    InvParts(s, g);
    hide Inv, NodesCovered, StreamsCovered, RecordsCovered, Covers, Accounted, Generations, Ordered, Bounded, Load;
    hide SameEvents, SameRecords, Entries;
    LoadIsEntries(Past(s, g), |s.nodes|);
    assert s.nodes[..|s.nodes|] == s.nodes;
  }

  lemma OneMoreKey(c: Clock, stream: Key)
    ensures SubmitCost(c, stream) == |c.Keys + {stream}|
  {
    assert |c.Keys| == |c|;
    if stream in c { assert c.Keys + {stream} == c.Keys; }
  }

  lemma JoinKeys(c: Clock, d: Clock)
    ensures Join(c, d).Keys == c.Keys + d.Keys
  {
  }

  lemma SubmitBudget(s: State, g: Graph, l: Ledger, stream: Key)
    requires Inv(s, g) && Matches(s, g, l) && stream in s.streams
    ensures s.clockEntries + SubmitCost(s.streams[stream], stream) <= CLOCK_LIMIT <==>
            Affordable(g, stream, Frontier(g, stream))
  {
    hide Inv, Matches, Shaped, Covers, Bounded, Load, Feeds, SubmitCost;
    KeptEntries(s, g, l);
    NothingBounded(s, g);
    ClocksInUse(s, g, stream, Token(stream, 0));
    ClockKeys(Past(s, g), s.streams[stream], g.frontier[stream]);
    OneMoreKey(s.streams[stream], stream);
  }

  lemma WaitBudget(s: State, g: Graph, l: Ledger, stream: Key, token: Token)
    requires Inv(s, g) && Matches(s, g, l) && stream in s.streams && token in s.records
    ensures s.clockEntries + WaitCost(s.streams[stream], s.records[token], stream) <= CLOCK_LIMIT <==>
            Affordable(g, stream, Frontier(g, stream) + Maker(g, token))
  {
    hide Inv, Matches, Shaped, Covers, Bounded, Load, Feeds, Join;
    KeptEntries(s, g, l);
    NothingBounded(s, g);
    ClocksInUse(s, g, stream, token);
    var c, d := s.streams[stream], s.records[token];
    CoversJoin(Past(s, g), c, d, g.frontier[stream], {g.recorder[token]});
    ClockKeys(Past(s, g), Join(c, d), g.frontier[stream] + {g.recorder[token]});
    JoinKeys(c, d);
  }

  lemma DrainedExactly(s: State, g: Graph, l: Ledger, key: Key)
    requires Inv(s, g) && Matches(s, g, l) && key in s.streams
    ensures Within(s.streams[key], s.completed) <==> Drained(l, g, key)
  {
    hide Inv, Matches, Within, Load;
    KeptEntries(s, g, l);
    WaitsForRetired(s, g, key);
  }

  // ---- acceptance, call by call ----

  lemma StreamsListed(s: State, g: Graph, l: Ledger)
    requires Matches(s, g, l)
    ensures s.streams.Keys == l.streams && s.events.Keys == l.events
    ensures s.streamGenerations == l.streamIds && s.eventGenerations == l.eventIds
  {
    hide SameRecords, SameNodes;
  }

  lemma CreateExactly(s: State, g: Graph, l: Ledger, op: Op)
    requires Matches(s, g, l) && (op.CreateStream? || op.CreateEvent?)
    ensures FaultOf(s, op).None? <==> Admissible(l, g, op)
  {
    hide Matches, AdmitFault, Open, NewKeyFault, Next;
    AdmittedExactly(s, g, l, op);
    StreamsListed(s, g, l);
    NextExactly(op.key, s.streamGenerations, s.streams.Keys);
    NextExactly(op.key, s.eventGenerations, s.events.Keys);
  }

  lemma SubmitExactly(s: State, g: Graph, l: Ledger, op: Op)
    requires Inv(s, g) && Matches(s, g, l) && (op.Submit? || op.Record?)
    ensures FaultOf(s, op).None? <==> Admissible(l, g, op)
  {
    hide Inv, Matches, AdmitFault, Open, ValidKey, Affordable, SubmitCost;
    AdmittedExactly(s, g, l, op);
    StreamsListed(s, g, l);
    if op.stream in s.streams { SubmitBudget(s, g, l, op.stream); }
  }

  lemma WaitExactly(s: State, g: Graph, l: Ledger, stream: Key, token: Token)
    requires Inv(s, g) && Matches(s, g, l)
    ensures FaultOf(s, Wait(stream, token)).None? <==> Admissible(l, g, Wait(stream, token))
  {
    hide Inv, Matches, AdmitFault, Open, ValidKey, Affordable, WaitCost, Current, ValidToken;
    AdmittedExactly(s, g, l, Wait(stream, token));
    StreamsListed(s, g, l);
    CurrentExactly(s, g, l, token);
    if stream in s.streams && token in s.records { WaitBudget(s, g, l, stream, token); }
  }

  lemma OtherExactly(s: State, g: Graph, l: Ledger, op: Op)
    requires Inv(s, g) && Matches(s, g, l)
    requires !op.CreateStream? && !op.CreateEvent? && !op.Submit? && !op.Record? && !op.Wait?
    ensures FaultOf(s, op).None? <==> Admissible(l, g, op)
  {
    hide Inv, Matches, AdmitFault, Open, ValidKey, Current, RecordFault, Within, Drained;
    AdmittedExactly(s, g, l, op);
    StreamsListed(s, g, l);
    if op.Query? { CurrentExactly(s, g, l, op.token); }
    if op.DestroyStream? && op.key in s.streams { DrainedExactly(s, g, l, op.key); }
  }

  lemma FaultExactly(s: State, g: Graph, l: Ledger, op: Op)
    requires Inv(s, g) && Matches(s, g, l)
    ensures FaultOf(s, op).None? <==> Admissible(l, g, op)
  {
    hide Inv, Matches, FaultOf, Admissible;
    match op
    case CreateStream(_) => CreateExactly(s, g, l, op);
    case CreateEvent(_) => CreateExactly(s, g, l, op);
    case Submit(_) => SubmitExactly(s, g, l, op);
    case Record(_, _) => SubmitExactly(s, g, l, op);
    case Wait(stream, token) => WaitExactly(s, g, l, stream, token);
    case _ => OtherExactly(s, g, l, op);
  }

  /** A call is accepted exactly when the calls before admit it, and then gets this answer. */
  lemma AcceptedExactly(ops: seq<Op>, op: Op)
    ensures !AnswerTo(ops, op).Rejected? <==> Admissible(Told(ops), Run(ops).1, op)
    ensures !AnswerTo(ops, op).Rejected? ==> AnswerTo(ops, op) == Reply(Told(ops), op)
  {
    hide Run, Told, Matches, Inv, FaultOf, Admissible, Apply, Answer;
    var (s, g) := Run(ops);
    LedgerAgrees(ops);
    RunKeepsInv(ops);
    FaultExactly(s, g, Told(ops), op);
    if FaultOf(s, op).None? {
      ReplyExactly(s, g, Told(ops), op);
    }
  }

  lemma ReplyExactly(s: State, g: Graph, l: Ledger, op: Op)
    requires Matches(s, g, l) && FaultOf(s, op).None?
    ensures Answer(s, op) == Reply(l, op)
  {
    AcceptedFacts(s, op);
    hide FaultOf, SameRecords, Entries;
  }

  /** The calls that break an unbroken model: extending a sealed one, hearing that the
      device failed, synchronizing a stream that is not there. */
  predicate Breaks(l: Ledger, op: Op) {
    || (l.sealed && Extends(op))
    || (op.Query? && op.report == Failure && Current(l, op.token))
    || (op.SynchronizeStream? && ValidKey(op.key) && (op.key !in l.streams || op.report != Success))
    || (op.SynchronizeContext? && op.report != Success)
  }

  lemma FaultsThatBreak(s: State, op: Op)
    ensures FaultOf(s, op) == Some(EventQueryFailure) <==>
            !s.poisoned && op.Query? && RecordFault(s, op.token).None? && op.report == Failure
    ensures FaultOf(s, op) == Some(StreamSyncFailure) <==>
            !s.poisoned && op.SynchronizeStream? && ValidKey(op.key) && (op.key !in s.streams || op.report != Success)
    ensures FaultOf(s, op) == Some(ContextSyncFailure) <==>
            !s.poisoned && op.SynchronizeContext? && op.report != Success
    ensures s.sealed && Extends(op) ==> FaultOf(s, op).Some?
  {
    hide ValidKey, ValidToken, Within, WaitCost, SubmitCost, Size;
  }

  lemma StepPoisons(s: State, op: Op)
    ensures Step(s, op).0.poisoned <==>
            || s.poisoned || (s.sealed && Extends(op))
            || FaultOf(s, op) == Some(EventQueryFailure) || FaultOf(s, op) == Some(StreamSyncFailure)
            || FaultOf(s, op) == Some(ContextSyncFailure)
  {
    FaultsThatBreak(s, op);
    hide FaultOf, Apply, Answer, Poisons, RecordFault, ValidKey;
    if FaultOf(s, op).Some? {
      RefusalPoisons(s, op);
    } else {
      KeepsFlag(s, op);
    }
  }

  lemma PoisonsExactly(s: State, g: Graph, l: Ledger, op: Op)
    requires Matches(s, g, l)
    ensures Step(s, op).0.poisoned <==> s.poisoned || Breaks(l, op)
  {
    hide Matches, Current, ValidKey, RecordFault, FaultOf, Step;
    StreamsListed(s, g, l);
    SameFlags(s, g, l);
    FaultsThatBreak(s, op);
    StepPoisons(s, op);
    if op.Query? { CurrentExactly(s, g, l, op.token); }
  }

  lemma KeepsFlag(s: State, op: Op)
    requires FaultOf(s, op).None?
    ensures Apply(s, op).poisoned == s.poisoned
  {
    AcceptedFacts(s, op);
    hide FaultOf, Join, JoinAll, Remove, Tick;
  }

  /** A model is poisoned from the first call that breaks it on, and by no other call. */
  lemma PoisonExact(ops: seq<Op>, op: Op)
    ensures Told(ops + [op]).poisoned <==> Told(ops).poisoned || Breaks(Told(ops), op)
  {
    hide Run, Told, Matches, Step, Track, Breaks;
    LedgerAgrees(ops);
    LedgerAgrees(ops + [op]);
    RunOneMore(ops, op);
    PoisonsExactly(Run(ops).0, Run(ops).1, Told(ops), op);
    SameFlags(Run(ops).0, Run(ops).1, Told(ops));
    SameFlags(Run(ops + [op]).0, Run(ops + [op]).1, Told(ops + [op]));
  }

  lemma SameFlags(s: State, g: Graph, l: Ledger)
    requires Matches(s, g, l)
    ensures s.poisoned == l.poisoned && s.sealed == l.sealed && g.owner == l.owners
  {
    hide SameEvents, SameRecords, Entries;
  }

  // ---- the ledger, from the single calls ----

  predicate AcceptedAt(ops: seq<Op>, i: nat) {
    i < |ops| && !AnswerTo(ops[..i], ops[i]).Rejected?
  }

  predicate DoneAt(ops: seq<Op>, i: nat, op: Op) {
    AcceptedAt(ops, i) && ops[i] == op
  }

  ghost predicate NeverAfter(ops: seq<Op>, i: nat, end: Op) {
    forall j: nat :: i < j ==> !DoneAt(ops, j, end)
  }

  /** Some accepted `start` is followed by no accepted `end`. */
  ghost predicate Outlives(ops: seq<Op>, start: Op, end: Op) {
    exists i: nat :: DoneAt(ops, i, start) && NeverAfter(ops, i, end)
  }

  predicate RecordedAt(ops: seq<Op>, i: nat, token: Token) {
    AcceptedAt(ops, i) && ops[i].Record? && ops[i].event == token.event
    && AnswerTo(ops[..i], ops[i]) == NewRecord(token)
  }

  predicate SupersededAt(ops: seq<Op>, i: nat, event: Key) {
    AcceptedAt(ops, i) && ((ops[i].Record? && ops[i].event == event) || ops[i] == DestroyEvent(event))
  }

  /** `token` answered the last accepted record of its event, and no accepted call has
      destroyed the event since. */
  ghost predicate IsLastRecord(ops: seq<Op>, token: Token) {
    exists i: nat :: RecordedAt(ops, i, token) && forall j: nat :: i < j ==> !SupersededAt(ops, j, token.event)
  }

  /** The number of accepted records of the event. */
  function RecordsOf(ops: seq<Op>, event: Key): nat {
    if ops == [] then 0
    else
      var n := |ops| - 1;
      RecordsOf(ops[..n], event) + if AcceptedAt(ops, n) && ops[n].Record? && ops[n].event == event then 1 else 0
  }

  lemma SamePrefix(ops: seq<Op>, i: nat)
    requires i < |ops| - 1
    ensures var init := ops[..|ops| - 1];
            ops[..i] == init[..i] && ops[i] == init[i] && (AcceptedAt(ops, i) <==> AcceptedAt(init, i))
  {
    assert ops[..|ops| - 1][..i] == ops[..i];
  }

  lemma ToldLast(ops: seq<Op>)
    requires ops != []
    ensures var n := |ops| - 1;
            Told(ops) == Tell(Told(ops[..n]), ops[n], AnswerTo(ops[..n], ops[n]))
  {
    hide Tell, AnswerTo;
  }

  lemma TellsStreams(l: Ledger, op: Op, answer: Outcome, key: Key)
    ensures key in Tell(l, op, answer).streams <==>
            (!answer.Rejected? && op == CreateStream(key))
            || (key in l.streams && !(!answer.Rejected? && op == DestroyStream(key)))
  {
    hide Get;
  }

  lemma TellsEvents(l: Ledger, op: Op, answer: Outcome, key: Key)
    ensures key in Tell(l, op, answer).events <==>
            (!answer.Rejected? && op == CreateEvent(key))
            || (key in l.events && !(!answer.Rejected? && op == DestroyEvent(key)))
  {
    hide Get;
  }

  /** The live streams and events are those created and not destroyed since. */
  lemma {:induction false} LivesExact(ops: seq<Op>, key: Key)
    ensures key in Told(ops).streams <==> Outlives(ops, CreateStream(key), DestroyStream(key))
    ensures key in Told(ops).events <==> Outlives(ops, CreateEvent(key), DestroyEvent(key))
  {
    if ops == [] {
    } else {
      hide Told, Tell, AnswerTo, Outlives;
      var n := |ops| - 1;
      LivesExact(ops[..n], key);
      ToldLast(ops);
      TellsStreams(Told(ops[..n]), ops[n], AnswerTo(ops[..n], ops[n]), key);
      TellsEvents(Told(ops[..n]), ops[n], AnswerTo(ops[..n], ops[n]), key);
      OutlivesLast(ops, CreateStream(key), DestroyStream(key));
      OutlivesLast(ops, CreateEvent(key), DestroyEvent(key));
    }
  }

  lemma DoneBefore(ops: seq<Op>, i: nat, op: Op)
    requires i < |ops| - 1
    ensures DoneAt(ops, i, op) <==> DoneAt(ops[..|ops| - 1], i, op)
  {
    hide AnswerTo, AcceptedAt;
    SamePrefix(ops, i);
  }

  lemma DoneWithin(ops: seq<Op>, op: Op)
    ensures forall i: nat :: DoneAt(ops, i, op) ==> i < |ops|
  {
  }

  lemma NeverAfterLast(ops: seq<Op>, i: nat, end: Op)
    requires i < |ops| - 1
    ensures NeverAfter(ops, i, end) <==> NeverAfter(ops[..|ops| - 1], i, end) && !DoneAt(ops, |ops| - 1, end)
  {
    hide DoneAt;
    var n := |ops| - 1;
    forall j: nat | j < n ensures DoneAt(ops, j, end) <==> DoneAt(ops[..n], j, end) { DoneBefore(ops, j, end); }
    DoneWithin(ops, end);
    DoneWithin(ops[..n], end);
  }

  lemma OutlivesLast(ops: seq<Op>, start: Op, end: Op)
    requires ops != []
    ensures var n := |ops| - 1;
            Outlives(ops, start, end) <==>
            DoneAt(ops, n, start) || (Outlives(ops[..n], start, end) && !DoneAt(ops, n, end))
  {
    hide DoneAt, NeverAfter;
    var n := |ops| - 1;
    DoneWithin(ops, start);
    DoneWithin(ops[..n], start);
    if Outlives(ops, start, end) {
      var i: nat :| DoneAt(ops, i, start) && NeverAfter(ops, i, end);
      if i < n {
        DoneBefore(ops, i, start);
        NeverAfterLast(ops, i, end);
      }
    }
    if Outlives(ops[..n], start, end) {
      var i: nat :| DoneAt(ops[..n], i, start) && NeverAfter(ops[..n], i, end);
      DoneBefore(ops, i, start);
      NeverAfterLast(ops, i, end);
    }
    NothingAfter(ops, n, end);
  }

  lemma NothingAfter(ops: seq<Op>, n: nat, end: Op)
    requires |ops| == n + 1
    ensures NeverAfter(ops, n, end)
  {
    hide AcceptedAt;
    DoneWithin(ops, end);
  }

  lemma LastRecordLast(ops: seq<Op>, token: Token)
    requires ops != []
    ensures var n := |ops| - 1;
            IsLastRecord(ops, token) <==>
            RecordedAt(ops, n, token) || (IsLastRecord(ops[..n], token) && !SupersededAt(ops, n, token.event))
  {
    var n := |ops| - 1;
    hide AnswerTo, AcceptedAt;
    forall i: nat | i < n
      ensures RecordedAt(ops, i, token) <==> RecordedAt(ops[..n], i, token)
      ensures SupersededAt(ops, i, token.event) <==> SupersededAt(ops[..n], i, token.event)
    {
      SamePrefix(ops, i);
    }
    hide RecordedAt, SupersededAt;
    RecordedWithin(ops, token);
    RecordedWithin(ops[..n], token);
    if i: nat :| RecordedAt(ops, i, token) && forall j: nat :: i < j ==> !SupersededAt(ops, j, token.event) {
      if i < n {
        assert RecordedAt(ops[..n], i, token);
      }
    }
    if i: nat :| RecordedAt(ops[..n], i, token)
                 && forall j: nat :: i < j ==> !SupersededAt(ops[..n], j, token.event) {
      assert RecordedAt(ops, i, token);
    }
  }

  lemma RecordedWithin(ops: seq<Op>, token: Token)
    ensures forall i: nat :: RecordedAt(ops, i, token) || SupersededAt(ops, i, token.event) ==> i < |ops|
  {
    hide AnswerTo;
  }

  lemma TellsCurrent(l: Ledger, op: Op, answer: Outcome, token: Token)
    requires op.Record? ==> answer.Rejected? || answer.NewRecord?
    ensures var m := Tell(l, op, answer);
            token.event in m.current && m.current[token.event] == token <==>
            (op.Record? && op.event == token.event && answer == NewRecord(token))
            || (token.event in l.current && l.current[token.event] == token
                && (answer.Rejected? || !((op.Record? && op.event == token.event) || op == DestroyEvent(token.event))))
  {
  }

  /** The ledger's current record is the last accepted one of a live event. */
  lemma {:induction false} CurrentIsLast(ops: seq<Op>, token: Token)
    ensures token.event in Told(ops).current && Told(ops).current[token.event] == token <==> IsLastRecord(ops, token)
  {
    if ops == [] {
    } else {
      hide Told, Tell, AnswerTo, IsLastRecord, Admissible;
      var n := |ops| - 1;
      CurrentIsLast(ops[..n], token);
      ToldLast(ops);
      AcceptedExactly(ops[..n], ops[n]);
      TellsCurrent(Told(ops[..n]), ops[n], AnswerTo(ops[..n], ops[n]), token);
      LastRecordLast(ops, token);
    }
  }

  lemma TellsMade(l: Ledger, op: Op, answer: Outcome, event: Key)
    requires op.Record? ==> answer.Rejected? || answer.NewRecord?
    ensures Get(Tell(l, op, answer).made, event) ==
            Get(l.made, event) + if !answer.Rejected? && op.Record? && op.event == event then 1 else 0
  {
  }

  lemma {:induction false} MadeExact(ops: seq<Op>, event: Key)
    ensures Get(Told(ops).made, event) == RecordsOf(ops, event)
  {
    if ops == [] {
    } else {
      hide Told, Tell, AnswerTo, Admissible, Get;
      var n := |ops| - 1;
      MadeExact(ops[..n], event);
      ToldLast(ops);
      AcceptedExactly(ops[..n], ops[n]);
      TellsMade(Told(ops[..n]), ops[n], AnswerTo(ops[..n], ops[n]), event);
    }
  }

  // ---- the main calls ----

  /** A query succeeds or finds the event pending exactly when the model is unbroken and the
      token answered the last accepted record of its event, not destroyed since. */
  lemma QueryExact(ops: seq<Op>, token: Token, report: Report)
    ensures !AnswerTo(ops, Query(token, report)).Rejected? <==>
            !Told(ops).poisoned && report != Failure && ValidToken(token) && IsLastRecord(ops, token)
  {
    AcceptedExactly(ops, Query(token, report));
    CurrentIsLast(ops, token);
    hide AnswerTo, Told, Run, IsLastRecord, ValidToken;
  }

  ghost predicate StreamLives(ops: seq<Op>, stream: Key) {
    Outlives(ops, CreateStream(stream), DestroyStream(stream))
  }

  ghost predicate EventLives(ops: seq<Op>, event: Key) {
    Outlives(ops, CreateEvent(event), DestroyEvent(event))
  }

  /** The node that `op` adds, on `stream`: the next number, after `edges`. */
  ghost predicate AddsNode(ops: seq<Op>, op: Op, stream: Key, edges: set<nat>) {
    var g, h := Run(ops).1, Run(ops + [op]).1;
    && Told(ops + [op]).owners == Told(ops).owners + [stream] == h.owner
    && h.preds == g.preds + [edges] && h.host == g.host
  }

  lemma SubmitExact(ops: seq<Op>, stream: Key)
    ensures var op, g := Submit(stream), Run(ops).1;
            && (!AnswerTo(ops, op).Rejected? <==>
                Open(Told(ops), op) && ValidKey(stream) && StreamLives(ops, stream)
                && Affordable(g, stream, Frontier(g, stream)))
            && (!AnswerTo(ops, op).Rejected? ==>
                AnswerTo(ops, op) == NewNode(|Told(ops).owners| + 1)
                && AddsNode(ops, op, stream, Frontier(g, stream)))
  {
    var op := Submit(stream);
    AcceptedExactly(ops, op);
    LivesExact(ops, stream);
    hide AnswerTo, Told, Run, Outlives, ValidKey, Affordable, Open;
    if !AnswerTo(ops, op).Rejected? {
      NodeAdded(ops, op, stream);
      assert Frontier(Run(ops).1, stream) + {} == Frontier(Run(ops).1, stream);
    }
  }

  /** A wait is accepted exactly on the last record of an event that lives; the node that
      made the record then reaches the new one. */
  lemma WaitExact(ops: seq<Op>, stream: Key, token: Token)
    ensures var op, g := Wait(stream, token), Run(ops).1;
            && (!AnswerTo(ops, op).Rejected? <==>
                Open(Told(ops), op) && ValidKey(stream) && StreamLives(ops, stream)
                && ValidToken(token) && IsLastRecord(ops, token)
                && Affordable(g, stream, Frontier(g, stream) + Maker(g, token)))
            && (!AnswerTo(ops, op).Rejected? ==>
                AnswerTo(ops, op) == NewNode(|Told(ops).owners| + 1)
                && AddsNode(ops, op, stream, Frontier(g, stream) + Maker(g, token))
                && RecorderOf(g, token).Some?)
  {
    var op := Wait(stream, token);
    AcceptedExactly(ops, op);
    LivesExact(ops, stream);
    CurrentIsLast(ops, token);
    hide AnswerTo, Told, Run, Outlives, ValidKey, ValidToken, Affordable, Open, IsLastRecord;
    if !AnswerTo(ops, op).Rejected? {
      NodeAdded(ops, op, stream);
      assert Frontier(Run(ops).1, stream) + {} == Frontier(Run(ops).1, stream);
    }
  }

  /** A record gets the number of records its event has had, plus one. */
  lemma RecordExact(ops: seq<Op>, event: Key, stream: Key)
    ensures var op, g := Record(event, stream), Run(ops).1;
            && (!AnswerTo(ops, op).Rejected? <==>
                Open(Told(ops), op) && ValidKey(event) && ValidKey(stream)
                && EventLives(ops, event) && StreamLives(ops, stream)
                && Affordable(g, stream, Frontier(g, stream)))
            && (!AnswerTo(ops, op).Rejected? ==>
                var token := Token(event, RecordsOf(ops, event) + 1);
                && AnswerTo(ops, op) == NewRecord(token)
                && AddsNode(ops, op, stream, Frontier(g, stream))
                && RecorderOf(Run(ops + [op]).1, token) == Some(|Told(ops).owners| + 1))
  {
    var op := Record(event, stream);
    AcceptedExactly(ops, op);
    LivesExact(ops, stream);
    LivesExact(ops, event);
    MadeExact(ops, event);
    hide AnswerTo, Told, Run, Outlives, ValidKey, Affordable, Open, RecordsOf;
    if !AnswerTo(ops, op).Rejected? {
      NodeAdded(ops, op, stream);
      assert Frontier(Run(ops).1, stream) + {} == Frontier(Run(ops).1, stream);
    }
  }

  lemma NodeAdded(ops: seq<Op>, op: Op, stream: Key)
    requires !AnswerTo(ops, op).Rejected?
    requires op == Submit(stream) || (op.Record? && op.stream == stream) || (op.Wait? && op.stream == stream)
    ensures var g, h := Run(ops).1, Run(ops + [op]).1;
            && AddsNode(ops, op, stream, Frontier(g, stream) + if op.Wait? then Maker(g, op.token) else {})
            && (op.Wait? ==> RecorderOf(g, op.token).Some?)
            && (op.Record? && AnswerTo(ops, op).NewRecord? ==>
                RecorderOf(h, AnswerTo(ops, op).token) == Some(|Told(ops).owners| + 1))
  {
    hide Run, Told, Matches, Inv, Step, FaultOf, Track, Answer;
    var (s, g) := Run(ops);
    LedgerAgrees(ops);
    LedgerAgrees(ops + [op]);
    SameFlags(s, g, Told(ops));
    SameFlags(Run(ops + [op]).0, Run(ops + [op]).1, Told(ops + [op]));
    RunKeepsInv(ops);
    OwnersAreNodes(s, g);
    RunOneMore(ops, op);
    StepAnswers(s, op);
    TrackAdds(s, g, op, stream);
    assert Frontier(g, stream) + {} == Frontier(g, stream);
  }

  lemma TrackAdds(s: State, g: Graph, op: Op, stream: Key)
    requires Inv(s, g) && FaultOf(s, op).None?
    requires op == Submit(stream) || (op.Record? && op.stream == stream) || (op.Wait? && op.stream == stream)
    ensures op.Wait? ==> op.token in g.recorder
    ensures op.Record? ==> Answer(s, op).NewRecord?
    ensures var h := Track(g, op, Answer(s, op));
            var edges := if op.Wait? then Frontier(g, stream) + Maker(g, op.token) else Frontier(g, stream);
            && h.preds == g.preds + [edges] && h.owner == g.owner + [stream] && h.host == g.host
            && (op.Record? ==> h.recorder == g.recorder[Answer(s, op).token := |g.preds|])
  {
    hide Inv;
    SameKeys(s, g);
    AcceptedFacts(s, op);
    hide FaultOf;
  }

  lemma StepAnswers(s: State, op: Op)
    ensures !Step(s, op).1.Rejected? <==> FaultOf(s, op).None?
    ensures !Step(s, op).1.Rejected? ==> Step(s, op).1 == Answer(s, op)
  {
    hide FaultOf, Apply;
  }
}
