/** The causal chains of scripts/validate_phase5_compression_trace.py: which record
    sequences are accepted, identity by identity. */
module CompressionTrace {
  import opened Options

  datatype Event =
    | H2dSubmit | H2dRetire | DecodeSubmit | DecodeRetire
    | EncodeSubmit | EncodeRetire | D2hSubmit | D2hRetire
    | Unrelated

  datatype Identity = Identity(allocation: int, chunk: int, operation: int,
                               sourceGeneration: int, slotGeneration: int, path: string)

  /** `identity` is None when a field is missing or mistyped. */
  datatype Record = Record(event: Event, identity: Option<Identity>, bytes: int,
                           target: Option<int>, speculative: Option<bool>)

  datatype Phase = H2dSubmitted | DecodeSubmitted | DecodeH2dRetired
                 | EncodeSubmitted | EncodeRetired | D2hSubmitted | EncodeD2hSubmitted

  datatype Chain = Chain(phase: Phase, bytes: int, target: Option<int>, speculative: Option<bool>)

  /** One identity's chain, if any is in flight; or a rejection. */
  datatype Progress = Open(chain: Option<Chain>) | Refused

  function ChainFrom(r: Record, phase: Phase): Chain {
    Chain(phase, r.bytes, r.target, r.speculative)
  }

  /** The chain with the record's facts checked against it. */
  function Continue(c: Chain, r: Record, phase: Phase): Option<Chain> {
    if r.bytes != c.bytes || r.speculative != c.speculative then None
    else if c.target.Some? && r.target != c.target then None
    else Some(Chain(phase, c.bytes, if c.target.Some? then c.target else r.target, c.speculative))
  }

  function Move(c: Chain, r: Record, phase: Phase): Progress {
    var next := Continue(c, r, phase);
    if next.Some? then Open(next) else Refused
  }

  function Close(c: Chain, r: Record): Progress {
    if Continue(c, r, c.phase).Some? then Open(None) else Refused
  }

  /** What one record does to its own identity's chain. */
  function Advance(current: Option<Chain>, r: Record): Progress {
    match r.event
    case H2dSubmit => if current.Some? then Refused else Open(Some(ChainFrom(r, H2dSubmitted)))
    case DecodeSubmit =>
      if current.Some? && current.value.phase == H2dSubmitted then Move(current.value, r, DecodeSubmitted) else Refused
    case H2dRetire =>
      if current.None? then Refused
      else if current.value.phase == H2dSubmitted then Close(current.value, r)
      else if current.value.phase == DecodeSubmitted then Move(current.value, r, DecodeH2dRetired)
      else Refused
    case DecodeRetire =>
      if current.Some? && current.value.phase == DecodeH2dRetired then Close(current.value, r) else Refused
    case EncodeSubmit => if current.Some? then Refused else Open(Some(ChainFrom(r, EncodeSubmitted)))
    case EncodeRetire =>
      if current.Some? && current.value.phase == EncodeSubmitted then Move(current.value, r, EncodeRetired) else Refused
    case D2hSubmit =>
      if current.None? then Open(Some(ChainFrom(r, D2hSubmitted)))
      else if current.value.phase == EncodeRetired then Move(current.value, r, EncodeD2hSubmitted)
      else Refused
    case D2hRetire =>
      if current.Some? && current.value.phase in {D2hSubmitted, EncodeD2hSubmitted}
      then Close(current.value, r) else Refused
    case Unrelated => Open(current)
  }

  function Find(active: map<Identity, Chain>, id: Identity): Option<Chain> {
    if id in active then Some(active[id]) else None
  }

  function Store(active: map<Identity, Chain>, id: Identity, chain: Option<Chain>): map<Identity, Chain> {
    if chain.Some? then active[id := chain.value] else active - {id}
  }

  /** The whole table after one record; None is a rejection. */
  function Step(active: map<Identity, Chain>, r: Record): Option<map<Identity, Chain>> {
    if r.event == Unrelated then Some(active)
    else if r.identity.None? then None
    else
      var next := Advance(Find(active, r.identity.value), r);
      if next.Refused? then None else Some(Store(active, r.identity.value, next.chain))
  }

  function Run(records: seq<Record>): Option<map<Identity, Chain>> {
    if records == [] then Some(map[])
    else
      var before := Run(records[..|records| - 1]);
      if before.None? then None else Step(before.value, records[|records| - 1])
  }

  function Count(records: seq<Record>, e: Event): nat {
    if records == [] then 0
    else Count(records[..|records| - 1], e) + if records[|records| - 1].event == e then 1 else 0
  }

  datatype Summary = Summary(records: nat, encodes: nat, decodes: nat)

  /** The validator: accepted exactly when the table survives every record and, if
      completeness is asked for, ends empty. */
  method ValidateCausalTrace(records: seq<Record>, requireComplete: bool) returns (r: Option<Summary>)
    ensures r == if Run(records).None? || (requireComplete && Run(records).value != map[]) then None
                 else Some(Summary(|records|, Count(records, EncodeSubmit), Count(records, DecodeSubmit)))
    ensures r.Some? <==>
            Identified(records) && if requireComplete then EachChains(records) else EachBegun(records)
  {
    CompleteIffChains(records);
    AcceptedIffBegun(records);
    hide Identified, EachChains, EachBegun;
    var active: map<Identity, Chain> := map[];
    var encodes, decodes := 0, 0;
    for n := 0 to |records|
      invariant Run(records[..n]) == Some(active)
      invariant encodes == Count(records[..n], EncodeSubmit) && decodes == Count(records[..n], DecodeSubmit)
    {
      var record := records[n];
      assert records[..n + 1][..n] == records[..n];
      RunPrefix(records, n + 1);
      if record.event == Unrelated { continue; }
      if record.identity.None? { return None; }
      var id := record.identity.value;
      var next := Advance(if id in active then Some(active[id]) else None, record);
      if next.Refused? { return None; }
      if next.chain.Some? { active := active[id := next.chain.value]; } else { active := active - {id}; }
      if record.event == EncodeSubmit { encodes := encodes + 1; }
      if record.event == DecodeSubmit { decodes := decodes + 1; }
    }
    assert records[..|records|] == records;
    if requireComplete && active != map[] { return None; }
    r := Some(Summary(|records|, encodes, decodes));
  }

  /** A rejection is never undone. */
  lemma {:induction false} RunPrefix(records: seq<Record>, n: nat)
    requires n <= |records|
    ensures Run(records).Some? ==> Run(records[..n]).Some?
    decreases |records|
  {
    if n < |records| {
      RunPrefix(records[..|records| - 1], n);
      assert records[..|records| - 1][..n] == records[..n];
    } else {
      assert records[..n] == records;
    }
  }

  // ---- independence of interleaving ----

  predicate Concerns(r: Record, id: Identity) {
    r.event != Unrelated && r.identity == Some(id)
  }

  /** The records of one identity, in order. */
  function Project(records: seq<Record>, id: Identity): seq<Record> {
    if records == [] then []
    else
      var init, last := Project(records[..|records| - 1], id), records[|records| - 1];
      if Concerns(last, id) then init + [last] else init
  }

  function RunFrom(current: Option<Chain>, rs: seq<Record>): Progress
    decreases |rs|
  {
    if rs == [] then Open(current)
    else
      var next := Advance(current, rs[0]);
      if next.Refused? then Refused else RunFrom(next.chain, rs[1..])
  }

  lemma {:induction false} RunFromJoin(current: Option<Chain>, a: seq<Record>, b: seq<Record>)
    ensures RunFrom(current, a + b) ==
            if RunFrom(current, a).Refused? then Refused else RunFrom(RunFrom(current, a).chain, b)
    decreases |a|
  {
    if a == [] {
      assert a + b == b;
    } else {
      assert (a + b)[1..] == a[1..] + b;
      var next := Advance(current, a[0]);
      if next.Open? { RunFromJoin(next.chain, a[1..], b); }
    }
  }

  ghost predicate Identified(records: seq<Record>) {
    forall i :: 0 <= i < |records| && records[i].event != Unrelated ==> records[i].identity.Some?
  }

  ghost predicate EachAccepted(records: seq<Record>) {
    forall id :: RunFrom(None, Project(records, id)).Open?
  }

  function After(before: Progress, r: Record, id: Identity): Progress {
    if before.Refused? then Refused
    else if Concerns(r, id) then Advance(before.chain, r)
    else before
  }

  lemma ProjectedStep(records: seq<Record>, id: Identity)
    requires records != []
    ensures var init, last := records[..|records| - 1], records[|records| - 1];
            RunFrom(None, Project(records, id)) == After(RunFrom(None, Project(init, id)), last, id)
  {
    hide Advance;
    var init, last := records[..|records| - 1], records[|records| - 1];
    RunFromJoin(None, Project(init, id), [last]);
    assert [last][1..] == [];
  }

  lemma IdentifiedSplit(records: seq<Record>)
    requires records != []
    ensures var last := records[|records| - 1];
            Identified(records) <==>
               Identified(records[..|records| - 1]) && (last.event != Unrelated ==> last.identity.Some?)
  {
    assert records == records[..|records| - 1] + [records[|records| - 1]];
  }

  /** A trace is accepted exactly when every identity's own records are, and then its table
      holds each identity's own progress: how the identities interleave does not matter. */
  lemma {:induction false} InterleavingIrrelevant(records: seq<Record>)
    ensures Run(records).Some? <==> Identified(records) && EachAccepted(records)
    ensures Run(records).Some? ==>
              forall id :: RunFrom(None, Project(records, id)) == Open(Find(Run(records).value, id))
  {
    hide RunFrom, Advance, Identified;
    if records == [] {
      NothingProjected();
    } else {
      var init, last := records[..|records| - 1], records[|records| - 1];
      InterleavingIrrelevant(init);
      IdentifiedSplit(records);
      forall id ensures RunFrom(None, Project(records, id)) == After(RunFrom(None, Project(init, id)), last, id) {
        ProjectedStep(records, id);
      }
      hide Project;
      if last.event != Unrelated && last.identity.Some? {
        var id := last.identity.value;
        assert RunFrom(None, Project(records, id)) == After(RunFrom(None, Project(init, id)), last, id);
      }
    }
  }

  lemma NothingProjected()
    ensures Identified([]) && forall id :: RunFrom(None, Project([], id)) == Open(None)
  {
  }

  // ---- the language of one identity ----

  /** The four kinds of whole chain, by the events in order. */
  predicate ChainEvents(c: seq<Record>) {
    || (|c| == 2 && c[0].event == H2dSubmit && c[1].event == H2dRetire)
    || (|c| == 4 && c[0].event == H2dSubmit && c[1].event == DecodeSubmit
        && c[2].event == H2dRetire && c[3].event == DecodeRetire)
    || (|c| == 4 && c[0].event == EncodeSubmit && c[1].event == EncodeRetire
        && c[2].event == D2hSubmit && c[3].event == D2hRetire)
    || (|c| == 2 && c[0].event == D2hSubmit && c[1].event == D2hRetire)
  }

  /** Bytes and speculative flag never change, and a target generation, once given, stays. */
  predicate Steady(c: seq<Record>) {
    && (forall i :: 0 < i < |c| ==> c[i].bytes == c[0].bytes && c[i].speculative == c[0].speculative)
    && (forall i, j :: 0 <= i < j < |c| && c[i].target.Some? ==> c[j].target == c[i].target)
  }

  predicate WholeChain(c: seq<Record>) {
    ChainEvents(c) && Steady(c)
  }

  function Flatten(chains: seq<seq<Record>>): seq<Record> {
    if chains == [] then [] else chains[0] + Flatten(chains[1..])
  }

  ghost predicate AllWhole(chains: seq<seq<Record>>) {
    forall c :: c in chains ==> WholeChain(c)
  }

  lemma RunOne(rs: seq<Record>, current: Option<Chain>)
    requires |rs| == 1
    ensures RunFrom(current, rs) == Advance(current, rs[0])
  {
    hide Advance;
    assert rs[1..] == [];
  }

  lemma RunTwo(c: seq<Record>, current: Option<Chain>)
    requires |c| == 2
    ensures RunFrom(current, c) ==
            var a := Advance(current, c[0]);
            if a.Refused? then Refused else Advance(a.chain, c[1])
  {
    hide Advance;
    var a := Advance(current, c[0]);
    if a.Open? { RunOne(c[1..], a.chain); }
  }

  lemma RunFour(c: seq<Record>, current: Option<Chain>)
    requires |c| == 4
    ensures RunFrom(current, c) ==
            var a := Advance(current, c[0]);
            if a.Refused? then Refused
            else
              var b := Advance(a.chain, c[1]);
              if b.Refused? then Refused
              else
                var d := Advance(b.chain, c[2]);
                if d.Refused? then Refused else Advance(d.chain, c[3])
  {
    hide Advance;
    RunFromJoin(current, c[..2], c[2..]);
    assert c == c[..2] + c[2..];
    RunTwo(c[..2], current);
    if RunFrom(current, c[..2]).Open? { RunTwo(c[2..], RunFrom(current, c[..2]).chain); }
  }

  lemma WholeChainCloses(c: seq<Record>)
    requires WholeChain(c)
    ensures RunFrom(None, c) == Open(None)
  {
    if |c| == 2 { RunTwo(c, None); } else { RunFour(c, None); }
  }

  lemma {:induction false} ChainsAreAccepted(chains: seq<seq<Record>>)
    requires AllWhole(chains)
    ensures RunFrom(None, Flatten(chains)) == Open(None)
  {
    if chains != [] {
      WholeChainCloses(chains[0]);
      ChainsAreAccepted(chains[1..]);
      RunFromJoin(None, chains[0], Flatten(chains[1..]));
    }
  }

  /** One record of an accepted run, and what is left. */
  lemma TakeOne(rs: seq<Record>, n: nat, current: Option<Chain>) returns (next: Option<Chain>)
    requires n <= |rs| && RunFrom(current, rs[n..]) == Open(None) && current.Some?
    ensures n < |rs| && Advance(current, rs[n]) == Open(next) && RunFrom(next, rs[n + 1..]) == Open(None)
  {
    hide Advance;
    assert rs[n..] != [];
    assert rs[n..][1..] == rs[n + 1..];
    next := Advance(current, rs[n]).chain;
  }

  /** The records that a run which ends with nothing open must begin with. */
  lemma FirstChain(rs: seq<Record>) returns (n: nat)
    requires rs != [] && RunFrom(None, rs) == Open(None)
    requires forall i :: 0 <= i < |rs| ==> rs[i].event != Unrelated
    ensures 0 < n <= |rs| && WholeChain(rs[..n]) && RunFrom(None, rs[n..]) == Open(None)
  {
    var a := Advance(None, rs[0]).chain;
    var b := TakeOne(rs, 1, a);
    hide RunFrom;
    if b == None {
      n := 2;
      PairChain(rs[..2]);
    } else {
      n := 4;
      var d := TakeOne(rs, 2, b);
      var e := TakeOne(rs, 3, d);
      QuadChain(rs[..4]);
    }
  }

  lemma PairChain(c: seq<Record>)
    requires |c| == 2 && c[0].event != Unrelated && c[1].event != Unrelated
    requires Advance(None, c[0]).Open? && Advance(Advance(None, c[0]).chain, c[1]) == Open(None)
    ensures WholeChain(c)
  {
  }

  lemma QuadChain(c: seq<Record>)
    requires |c| == 4 && forall i :: 0 <= i < 4 ==> c[i].event != Unrelated
    requires var a := Advance(None, c[0]);
             && a.Open?
             && var b := Advance(a.chain, c[1]);
             && b.Open? && b.chain != None
             && var d := Advance(b.chain, c[2]);
             && d.Open? && Advance(d.chain, c[3]) == Open(None)
    ensures WholeChain(c)
  {
  }

  lemma {:induction false} AcceptedAreChains(rs: seq<Record>) returns (chains: seq<seq<Record>>)
    requires RunFrom(None, rs) == Open(None)
    requires forall i :: 0 <= i < |rs| ==> rs[i].event != Unrelated
    ensures AllWhole(chains) && Flatten(chains) == rs
    decreases |rs|
  {
    if rs == [] {
      chains := [];
    } else {
      var n := FirstChain(rs);
      var rest := AcceptedAreChains(rs[n..]);
      chains := [rs[..n]] + rest;
      assert chains[1..] == rest && rs == rs[..n] + rs[n..];
    }
  }

  /** The records are whole chains, one after another. */
  ghost predicate IsChains(rs: seq<Record>) {
    exists chains :: AllWhole(chains) && Flatten(chains) == rs
  }

  lemma {:induction false} ProjectedAreRelated(records: seq<Record>, id: Identity)
    ensures forall i :: 0 <= i < |Project(records, id)| ==> Concerns(Project(records, id)[i], id)
  {
    if records != [] { ProjectedAreRelated(records[..|records| - 1], id); }
  }

  lemma ClosedIffChains(records: seq<Record>, id: Identity)
    ensures RunFrom(None, Project(records, id)) == Open(None) <==> IsChains(Project(records, id))
  {
    var rs := Project(records, id);
    ProjectedAreRelated(records, id);
    hide RunFrom, Project, AllWhole, Flatten;
    if RunFrom(None, rs) == Open(None) {
      var chains := AcceptedAreChains(rs);
    }
    if IsChains(rs) {
      var chains :| AllWhole(chains) && Flatten(chains) == rs;
      ChainsAreAccepted(chains);
    }
  }

  /** A trace passes with completeness required exactly when every transfer record is
      identified and each identity's records are whole chains, one after another. */
  lemma CompleteIffChains(records: seq<Record>)
    ensures Run(records) == Some(map[]) <==> Identified(records) && EachChains(records)
  {
    hide Run, RunFrom, Project, IsChains, Identified;
    InterleavingIrrelevant(records);
    forall id ensures RunFrom(None, Project(records, id)) == Open(None) <==> IsChains(Project(records, id)) {
      ClosedIffChains(records, id);
    }
    if Run(records) == Some(map[]) {
      forall id ensures IsChains(Project(records, id)) {
        assert RunFrom(None, Project(records, id)) == Open(Find(map[], id));
      }
    }
    if Identified(records) && EachChains(records) {
      forall id ensures RunFrom(None, Project(records, id)) == Open(None) {
        assert IsChains(Project(records, id));
      }
      var m := Run(records).value;
      forall id ensures id !in m {
        assert RunFrom(None, Project(records, id)) == Open(Find(m, id));
      }
      assert m == map[];
    }
  }

  ghost predicate EachChains(records: seq<Record>) {
    forall id :: IsChains(Project(records, id))
  }

  // ---- traces that are not complete ----

  /** The records begin a chain and do not finish it. */
  ghost predicate Begins(rs: seq<Record>) {
    exists c :: WholeChain(c) && |rs| < |c| && rs == c[..|rs|]
  }

  /** The records are whole chains and then the beginning of one more. */
  ghost predicate IsChainsBegun(rs: seq<Record>) {
    exists n: nat :: n <= |rs| && IsChains(rs[..n]) && Begins(rs[n..])
  }

  /** A record that continues a chain with nothing changed. */
  function Same(r: Record, e: Event, target: Option<int>): Record {
    r.(event := e, target := target)
  }

  lemma BeginsNothing()
    ensures Begins([])
  {
    var r := Record(H2dSubmit, None, 0, None, None);
    var c := [r, Same(r, H2dRetire, None)];
    assert WholeChain(c) && c[..0] == [];
  }

  lemma BeginsOne(rs: seq<Record>)
    requires |rs| == 1 && rs[0].event != Unrelated && Advance(None, rs[0]).Open?
    ensures Begins(rs)
  {
    var r := rs[0];
    var c := if r.event == H2dSubmit then [r, Same(r, H2dRetire, r.target)]
             else if r.event == D2hSubmit then [r, Same(r, D2hRetire, r.target)]
             else [r, Same(r, EncodeRetire, r.target), Same(r, D2hSubmit, r.target), Same(r, D2hRetire, r.target)];
    assert WholeChain(c) && rs == c[..1];
  }

  function Sticky(a: Record, b: Record): Option<int> {
    if a.target.Some? then a.target else b.target
  }

  lemma BeginsTwo(rs: seq<Record>)
    requires |rs| == 2 && rs[0].event != Unrelated && rs[1].event != Unrelated
    requires Advance(None, rs[0]).Open?
    requires Advance(Advance(None, rs[0]).chain, rs[1]).Open? && Advance(Advance(None, rs[0]).chain, rs[1]).chain.Some?
    ensures Begins(rs)
  {
    var t := Sticky(rs[0], rs[1]);
    var c := if rs[0].event == H2dSubmit then rs + [Same(rs[1], H2dRetire, t), Same(rs[1], DecodeRetire, t)]
             else rs + [Same(rs[1], D2hSubmit, t), Same(rs[1], D2hRetire, t)];
    assert WholeChain(c) && rs == c[..2];
  }

  lemma BeginsThree(rs: seq<Record>)
    requires |rs| == 3 && forall i :: 0 <= i < 3 ==> rs[i].event != Unrelated
    requires var a := Advance(None, rs[0]);
             && a.Open?
             && var b := Advance(a.chain, rs[1]);
             b.Open? && b.chain.Some? && Advance(b.chain, rs[2]).Open?
    ensures Begins(rs)
  {
    var t := if rs[0].target.Some? then rs[0].target else Sticky(rs[1], rs[2]);
    var c := rs + [Same(rs[2], if rs[0].event == H2dSubmit then DecodeRetire else D2hRetire, t)];
    assert WholeChain(c) && rs == c[..3];
  }

  /** The fourth accepted record of a chain of four closes it. */
  lemma FourthCloses(rs: seq<Record>)
    requires |rs| >= 4 && forall i :: 0 <= i < 4 ==> rs[i].event != Unrelated
    requires var a := Advance(None, rs[0]);
             && a.Open?
             && var b := Advance(a.chain, rs[1]);
             && b.Open? && b.chain.Some?
             && var d := Advance(b.chain, rs[2]);
             d.Open? && Advance(d.chain, rs[3]).Open?
    ensures Advance(Advance(Advance(Advance(None, rs[0]).chain, rs[1]).chain, rs[2]).chain, rs[3]) == Open(None)
  {
  }

  lemma OneStep(rs: seq<Record>, n: nat, current: Option<Chain>)
    requires n < |rs| && RunFrom(current, rs[n..]).Open?
    ensures var next := Advance(current, rs[n]); next.Open? && RunFrom(next.chain, rs[n + 1..]).Open?
  {
    hide Advance;
    assert rs[n..][1..] == rs[n + 1..];
  }

  /** An accepted run begins a chain or starts with a whole one. */
  lemma FirstOpen(rs: seq<Record>) returns (n: nat)
    requires RunFrom(None, rs).Open? && forall i :: 0 <= i < |rs| ==> rs[i].event != Unrelated
    ensures n == 0 ==> Begins(rs)
    ensures n > 0 ==> n <= |rs| && WholeChain(rs[..n]) && RunFrom(None, rs[n..]).Open?
  {
    hide RunFrom;
    n := 0;
    assert rs[0..] == rs;
    if rs == [] { BeginsNothing(); return; }
    OneStep(rs, 0, None);
    var a := Advance(None, rs[0]).chain;
    if |rs| == 1 { BeginsOne(rs); return; }
    OneStep(rs, 1, a);
    var b := Advance(a, rs[1]).chain;
    if b.None? {
      PairChain(rs[..2]);
      return 2;
    }
    if |rs| == 2 { BeginsTwo(rs); return; }
    OneStep(rs, 2, b);
    if |rs| == 3 { BeginsThree(rs); return; }
    OneStep(rs, 3, Advance(b, rs[2]).chain);
    FourthCloses(rs);
    QuadChain(rs[..4]);
    n := 4;
  }

  lemma {:induction false} OpenAreBegun(rs: seq<Record>) returns (chains: seq<seq<Record>>, n: nat)
    requires RunFrom(None, rs).Open? && forall i :: 0 <= i < |rs| ==> rs[i].event != Unrelated
    ensures n <= |rs| && AllWhole(chains) && Flatten(chains) == rs[..n] && Begins(rs[n..])
    decreases |rs|
  {
    hide RunFrom, Begins;
    var first := FirstOpen(rs);
    if first == 0 {
      chains, n := [], 0;
      assert rs[0..] == rs;
    } else {
      var rest, m := OpenAreBegun(rs[first..]);
      chains, n := [rs[..first]] + rest, first + m;
      assert chains[1..] == rest && rs[..n] == rs[..first] + rs[first..][..m] && rs[n..] == rs[first..][m..];
    }
  }

  lemma BegunIsOpen(rs: seq<Record>)
    requires Begins(rs)
    ensures RunFrom(None, rs).Open?
  {
    hide RunFrom;
    var c :| WholeChain(c) && |rs| < |c| && rs == c[..|rs|];
    WholeChainCloses(c);
    assert c == rs + c[|rs|..];
    RunFromJoin(None, rs, c[|rs|..]);
  }

  lemma OpenIffBegun(records: seq<Record>, id: Identity)
    ensures RunFrom(None, Project(records, id)).Open? <==> IsChainsBegun(Project(records, id))
  {
    var rs := Project(records, id);
    ProjectedAreRelated(records, id);
    hide RunFrom, Project, AllWhole, Flatten, Begins;
    if RunFrom(None, rs).Open? {
      var chains, n := OpenAreBegun(rs);
      assert IsChains(rs[..n]);
    }
    if IsChainsBegun(rs) {
      var n: nat :| n <= |rs| && IsChains(rs[..n]) && Begins(rs[n..]);
      var chains :| AllWhole(chains) && Flatten(chains) == rs[..n];
      ChainsAreAccepted(chains);
      BegunIsOpen(rs[n..]);
      assert rs == rs[..n] + rs[n..];
      RunFromJoin(None, rs[..n], rs[n..]);
    }
  }

  ghost predicate EachBegun(records: seq<Record>) {
    forall id :: IsChainsBegun(Project(records, id))
  }

  /** Without completeness a trace passes exactly when every transfer record is identified and
      each identity's records are whole chains and then at most the beginning of one. */
  lemma AcceptedIffBegun(records: seq<Record>)
    ensures Run(records).Some? <==> Identified(records) && EachBegun(records)
  {
    hide Run, RunFrom, Project, IsChainsBegun, Identified;
    InterleavingIrrelevant(records);
    forall id ensures RunFrom(None, Project(records, id)).Open? <==> IsChainsBegun(Project(records, id)) {
      OpenIffBegun(records, id);
    }
    if Run(records).Some? {
      forall id ensures IsChainsBegun(Project(records, id)) {
        assert RunFrom(None, Project(records, id)).Open?;
      }
    }
    if EachBegun(records) {
      forall id ensures RunFrom(None, Project(records, id)).Open? {
        assert IsChainsBegun(Project(records, id));
      }
    }
  }

  // ---- the counters ----

  /** The number of chains that begin by encoding, or that decode. */
  function EncodeChains(chains: seq<seq<Record>>): nat {
    if chains == [] then 0
    else (if chains[0] != [] && chains[0][0].event == EncodeSubmit then 1 else 0) + EncodeChains(chains[1..])
  }

  function DecodeChains(chains: seq<seq<Record>>): nat {
    if chains == [] then 0
    else (if |chains[0]| > 1 && chains[0][1].event == DecodeSubmit then 1 else 0) + DecodeChains(chains[1..])
  }

  lemma {:induction false} CountJoin(a: seq<Record>, b: seq<Record>, e: Event)
    ensures Count(a + b, e) == Count(a, e) + Count(b, e)
  {
    if b == [] {
      assert a + b == a;
    } else {
      assert (a + b)[..|a + b| - 1] == a + b[..|b| - 1];
      CountJoin(a, b[..|b| - 1], e);
    }
  }

  lemma CountPair(a: Record, b: Record, e: Event)
    ensures Count([a, b], e) == (if a.event == e then 1 else 0) + (if b.event == e then 1 else 0)
  {
    assert [a, b] == [a] + [b];
    CountJoin([a], [b], e);
  }

  lemma CountChain(c: seq<Record>)
    requires WholeChain(c)
    ensures Count(c, EncodeSubmit) == if c[0].event == EncodeSubmit then 1 else 0
    ensures Count(c, DecodeSubmit) == if c[1].event == DecodeSubmit then 1 else 0
  {
    CountPair(c[0], c[1], EncodeSubmit);
    CountPair(c[0], c[1], DecodeSubmit);
    if |c| == 2 {
      assert c == [c[0], c[1]];
    } else {
      assert c == [c[0], c[1]] + [c[2], c[3]];
      CountPair(c[2], c[3], EncodeSubmit);
      CountPair(c[2], c[3], DecodeSubmit);
      CountJoin([c[0], c[1]], [c[2], c[3]], EncodeSubmit);
      CountJoin([c[0], c[1]], [c[2], c[3]], DecodeSubmit);
    }
  }

  lemma {:induction false} CountChains(chains: seq<seq<Record>>)
    requires AllWhole(chains)
    ensures Count(Flatten(chains), EncodeSubmit) == EncodeChains(chains)
    ensures Count(Flatten(chains), DecodeSubmit) == DecodeChains(chains)
  {
    if chains != [] {
      CountChain(chains[0]);
      CountChains(chains[1..]);
      CountJoin(chains[0], Flatten(chains[1..]), EncodeSubmit);
      CountJoin(chains[0], Flatten(chains[1..]), DecodeSubmit);
    }
  }

  /** The count of an event, added up identity by identity. */
  function CountOver(ids: seq<Identity>, records: seq<Record>, e: Event): nat {
    if ids == [] then 0 else Count(Project(records, ids[0]), e) + CountOver(ids[1..], records, e)
  }

  ghost predicate Distinct(ids: seq<Identity>) {
    forall i, j :: 0 <= i < j < |ids| ==> ids[i] != ids[j]
  }

  lemma ProjectCount(records: seq<Record>, id: Identity, e: Event)
    requires records != []
    ensures var last := records[|records| - 1];
            Count(Project(records, id), e) ==
            Count(Project(records[..|records| - 1], id), e) + if last.event == e && Concerns(last, id) then 1 else 0
  {
    var init, last := Project(records[..|records| - 1], id), records[|records| - 1];
    assert (init + [last])[..|init|] == init;
  }

  lemma {:induction false} CountOverStep(ids: seq<Identity>, records: seq<Record>, e: Event)
    requires records != [] && Distinct(ids)
    ensures var last := records[|records| - 1];
            CountOver(ids, records, e) ==
            CountOver(ids, records[..|records| - 1], e)
            + if last.event == e && exists id :: id in ids && Concerns(last, id) then 1 else 0
    decreases |ids|
  {
    if ids != [] {
      hide Project, Count;
      var last := records[|records| - 1];
      CountOverStep(ids[1..], records, e);
      ProjectCount(records, ids[0], e);
      assert forall id :: id in ids <==> id == ids[0] || id in ids[1..];
      assert ids[0] !in ids[1..];
    }
  }

  /** The counters are the sums, over the identities of an accepted trace, of the encode
      and decode submissions of each; by CountChains these are its encode and decode chains. */
  lemma {:induction false} CountersAddUp(ids: seq<Identity>, records: seq<Record>, e: Event)
    requires e != Unrelated && Identified(records) && Distinct(ids)
    requires forall i :: 0 <= i < |records| && records[i].event != Unrelated ==> records[i].identity.value in ids
    ensures Count(records, e) == CountOver(ids, records, e)
    decreases |records|
  {
    if records == [] {
      CountOverNothing(ids, e);
    } else {
      var init, last := records[..|records| - 1], records[|records| - 1];
      IdentifiedSplit(records);
      assert forall i :: 0 <= i < |init| ==> init[i] == records[i];
      CountersAddUp(ids, init, e);
      CountOverStep(ids, records, e);
      if last.event != Unrelated { assert Concerns(last, last.identity.value); }
    }
  }

  lemma {:induction false} CountOverNothing(ids: seq<Identity>, e: Event)
    ensures CountOver(ids, [], e) == 0
    decreases |ids|
  {
    if ids != [] { CountOverNothing(ids[1..], e); }
  }

  // ---- one statement over a complete trace ----

  /** The identities of a trace, each once. */
  function Identities(records: seq<Record>): seq<Identity> {
    if records == [] then []
    else
      var before, last := Identities(records[..|records| - 1]), records[|records| - 1];
      if last.event == Unrelated || last.identity.None? || last.identity.value in before then before
      else before + [last.identity.value]
  }

  lemma {:induction false} IdentitiesListed(records: seq<Record>)
    requires Identified(records)
    ensures Distinct(Identities(records))
    ensures forall i :: 0 <= i < |records| && records[i].event != Unrelated ==>
              records[i].identity.value in Identities(records)
  {
    if records != [] {
      var init := records[..|records| - 1];
      IdentitiesSplit(records);
      IdentitiesListed(init);
      assert forall i :: 0 <= i < |init| ==> init[i] == records[i];
    }
  }

  lemma IdentitiesSplit(records: seq<Record>)
    requires records != [] && Identified(records)
    ensures Identified(records[..|records| - 1])
    ensures records[|records| - 1].event != Unrelated ==> records[|records| - 1].identity.Some?
  {
    IdentifiedSplit(records);
  }

  function TotalEncodes(chains: seq<seq<seq<Record>>>): nat {
    if chains == [] then 0 else EncodeChains(chains[0]) + TotalEncodes(chains[1..])
  }

  function TotalDecodes(chains: seq<seq<seq<Record>>>): nat {
    if chains == [] then 0 else DecodeChains(chains[0]) + TotalDecodes(chains[1..])
  }

  /** Entry i splits the records of identity i into whole chains. */
  ghost predicate Splits(records: seq<Record>, ids: seq<Identity>, chains: seq<seq<seq<Record>>>) {
    |chains| == |ids| && forall i :: 0 <= i < |ids| ==>
      AllWhole(chains[i]) && Flatten(chains[i]) == Project(records, ids[i])
  }

  lemma SplitOne(records: seq<Record>, id: Identity) returns (chains: seq<seq<Record>>)
    requires EachChains(records)
    ensures AllWhole(chains) && Flatten(chains) == Project(records, id)
    ensures Count(Project(records, id), EncodeSubmit) == EncodeChains(chains)
    ensures Count(Project(records, id), DecodeSubmit) == DecodeChains(chains)
  {
    assert IsChains(Project(records, id));
    chains :| AllWhole(chains) && Flatten(chains) == Project(records, id);
    CountChains(chains);
  }

  lemma SplitsCons(records: seq<Record>, ids: seq<Identity>, first: seq<seq<Record>>, rest: seq<seq<seq<Record>>>)
    requires ids != [] && AllWhole(first) && Flatten(first) == Project(records, ids[0])
    requires Splits(records, ids[1..], rest)
    ensures Splits(records, ids, [first] + rest)
  {
    hide AllWhole, Flatten, Project;
    var all := [first] + rest;
    forall i | 0 <= i < |ids| ensures AllWhole(all[i]) && Flatten(all[i]) == Project(records, ids[i]) {
      if i > 0 { assert ids[i] == ids[1..][i - 1] && all[i] == rest[i - 1]; }
    }
  }

  lemma {:induction false} SplitEach(records: seq<Record>, ids: seq<Identity>) returns (chains: seq<seq<seq<Record>>>)
    requires EachChains(records)
    ensures Splits(records, ids, chains)
    ensures CountOver(ids, records, EncodeSubmit) == TotalEncodes(chains)
    ensures CountOver(ids, records, DecodeSubmit) == TotalDecodes(chains)
    decreases |ids|
  {
    hide AllWhole, Flatten, Project, EachChains, EncodeChains, DecodeChains, Count;
    chains := [];
    if ids != [] {
      var first := SplitOne(records, ids[0]);
      var rest := SplitEach(records, ids[1..]);
      SplitsCons(records, ids, first, rest);
      chains := [first] + rest;
    }
  }

  /** On a trace that passes with completeness required, the validator's counters are the total
      numbers of encode and decode chains, over all identities. */
  lemma CountersCountChains(records: seq<Record>) returns (chains: seq<seq<seq<Record>>>)
    requires Run(records) == Some(map[])
    ensures Splits(records, Identities(records), chains)
    ensures Count(records, EncodeSubmit) == TotalEncodes(chains)
    ensures Count(records, DecodeSubmit) == TotalDecodes(chains)
  {
    CompleteIffChains(records);
    IdentitiesListed(records);
    hide Run, Identified, EachChains, Splits, Distinct, Identities, Count, CountOver;
    chains := SplitEach(records, Identities(records));
    CountersAddUp(Identities(records), records, EncodeSubmit);
    CountersAddUp(Identities(records), records, DecodeSubmit);
  }
}
