/**
 The chaincode side of endorsement (shim/stub.go): the gate that forbids deltas after a state read, and what it
 means for two endorsers that hold different ledgers.
 */
module Shim {
  import opened Prelude
  import opened Int64
  import opened TypedDelta
  import opened RwSet
  import opened Validation
  import History

  /** `buildShimDelta`: a proper op and a canonical, non-negative magnitude, or nothing. */
  function BuildShimDelta(typeId: Bytes, op: PbOp, arg: Bytes, schemaVersion: Bytes): (r: Option<Descriptor>)
    ensures r.Some? <==> !op.OtherOp? && Decode(arg).Some? && Decode(arg).value >= 0
    ensures r.Some? ==> ToDelta(r.value).Ok? && ProperDelta(ToDelta(r.value).value)
    ensures r.Some? ==> r.value == Descriptor(typeId, op, arg, schemaVersion)
  {
    if op != ADD && op != SUB then None
    else if |arg| != INT64_WIDTH then None
    else if Wrap(GetBE(arg)) < 0 then None
    else Some(Descriptor(typeId, op, arg, schemaVersion))
  }

  /** Every stub method that hands ledger state to the chaincode. */
  datatype ReadMethod =
    | InvokeChaincode | GetState | GetStateValidationParameter | GetQueryResult | GetPrivateData | GetPrivateDataHash
    | GetPrivateDataByRange | GetPrivateDataByPartialCompositeKey | GetPrivateDataQueryResult
    | GetPrivateDataValidationParameter | GetStateByRange | GetHistoryForKey | GetStateByPartialCompositeKey
    | GetStateByRangeWithPagination | GetStateByPartialCompositeKeyWithPagination | GetQueryResultWithPagination

  datatype Call =
    | Read(how: ReadMethod, arguments: Bytes)
    | NextResult                                   // an iterator obtained from an earlier read
    | PutState(key: Bytes, value: Bytes)
    | DelState(key: Bytes)
    | PutDelta(key: Bytes, typeId: Bytes, op: PbOp, arg: Bytes, schemaVersion: Bytes)
    | OtherWrite(payload: Bytes)                   // private data, validation parameters
    | ProposalInput(what: Bytes)                   // arguments, tx id, creator, transient map

  datatype Response = Data(bytes: Bytes) | Input(bytes: Bytes) | Ack | PeerError | EmptyKey | AfterRead | PlainAndDelta | BadDelta | NoIterator

  datatype StubState = StubState(didRead: bool, plainKeys: set<Bytes>, deltaKeys: set<Bytes>, writes: seq<KVWrite>)

  const FRESH: StubState := StubState(false, {}, {}, [])

  /** The write is recorded in the simulation only if the peer acknowledges it. */
  function Record(st: StubState, w: KVWrite, ack: bool): (StubState, Response) {
    if ack then (st.(writes := st.writes + [w]), Ack) else (st, PeerError)
  }

  /**
   One stub call. `state` is what the ledger would answer to a read, `input` what the proposal holds, `ack` whether
   the peer acknowledges a write.
   */
  function Exec(st: StubState, call: Call, state: Bytes, input: Bytes, ack: bool): (StubState, Response) {
    match call
    case Read(_, _) => (st.(didRead := true), Data(state))
    case NextResult => if st.didRead then (st, Data(state)) else (st, NoIterator)
    case OtherWrite(_) => (st, if ack then Ack else PeerError)
    case ProposalInput(_) => (st, Input(input))
    case PutState(key, value) =>
      if |key| == 0 then (st, EmptyKey)
      else if key in st.deltaKeys then (st, PlainAndDelta)
      else Record(st.(plainKeys := st.plainKeys + {key}), KVWrite(key, value, false, None), ack)
    case DelState(key) =>
      if key in st.deltaKeys then (st, PlainAndDelta)
      else Record(st.(plainKeys := st.plainKeys + {key}), KVWrite(key, [], true, None), ack)
    case PutDelta(key, typeId, op, arg, schemaVersion) =>
      if |key| == 0 then (st, EmptyKey)
      else if st.didRead then (st, AfterRead)
      else if key in st.plainKeys then (st, PlainAndDelta)
      else
        match BuildShimDelta(typeId, op, arg, schemaVersion)
        case None => (st, BadDelta)
        case Some(d) => Record(st.(deltaKeys := st.deltaKeys + {key}), KVWrite(key, [], false, Some(d)), ack)
  }

  /** The stub as the chaincode sees it. */
  class ChaincodeStub {
    var didRead: bool
    var plainKeys: set<Bytes>
    var deltaKeys: set<Bytes>
    var writes: seq<KVWrite>

    ghost function State(): StubState
      reads this
    {
      StubState(didRead, plainKeys, deltaKeys, writes)
    }

    constructor ()
      ensures State() == FRESH
    {
      didRead, plainKeys, deltaKeys, writes := false, {}, {}, [];
    }

    /** Any of the read methods: the flag is set before the peer is asked. */
    method Query(how: ReadMethod, arguments: Bytes, state: Bytes) returns (r: Response)
      modifies this
      ensures (State(), r) == Exec(old(State()), Read(how, arguments), state, [], true)
      ensures didRead && r == Data(state) && plainKeys == old(plainKeys) && deltaKeys == old(deltaKeys) && writes == old(writes)
    {
      didRead := true;
      r := Data(state);
    }

    method Put(key: Bytes, value: Bytes, ack: bool) returns (r: Response)
      modifies this
      ensures (State(), r) == Exec(old(State()), PutState(key, value), [], [], ack)
    {
      if |key| == 0 {
        return EmptyKey;
      }
      if key in deltaKeys {
        return PlainAndDelta;
      }
      plainKeys := plainKeys + {key};
      if !ack {
        return PeerError;
      }
      writes := writes + [KVWrite(key, value, false, None)];
      r := Ack;
    }

    method Del(key: Bytes, ack: bool) returns (r: Response)
      modifies this
      ensures (State(), r) == Exec(old(State()), DelState(key), [], [], ack)
    {
      if key in deltaKeys {
        return PlainAndDelta;
      }
      plainKeys := plainKeys + {key};
      if !ack {
        return PeerError;
      }
      writes := writes + [KVWrite(key, [], true, None)];
      r := Ack;
    }

    method Delta(key: Bytes, typeId: Bytes, op: PbOp, arg: Bytes, schemaVersion: Bytes, ack: bool) returns (r: Response)
      modifies this
      ensures (State(), r) == Exec(old(State()), PutDelta(key, typeId, op, arg, schemaVersion), [], [], ack)
    {
      if |key| == 0 {
        return EmptyKey;
      }
      if didRead {
        return AfterRead;
      }
      if key in plainKeys {
        return PlainAndDelta;
      }
      var delta := BuildShimDelta(typeId, op, arg, schemaVersion);
      if delta.None? {
        return BadDelta;
      }
      deltaKeys := deltaKeys + {key};
      if !ack {
        return PeerError;
      }
      writes := writes + [KVWrite(key, [], false, Some(delta.value))];
      r := Ack;
    }
  }

  // ---------- runs of a deterministic chaincode ----------

  /**
   A deterministic chaincode under one proposal: the next call is a function of the responses so far, and so are
   the proposal's own data and the peer's acknowledgements. It stops where `prog` is undefined.
   */
  datatype Simulation = Simulation(prog: imap<seq<Response>, Call>, inputs: imap<seq<Response>, Bytes>, acks: iset<seq<Response>>)

  /** What one ledger answers, step by step, to the reads of a run. */
  type Ledger = imap<nat, Bytes>

  datatype RunState = RunState(stub: StubState, transcript: seq<Response>)

  ghost function Answer(ledger: Ledger, n: nat): Bytes {
    if n in ledger then ledger[n] else []
  }

  ghost function Advance(p: Simulation, r: RunState, answer: Bytes): RunState {
    if r.transcript !in p.prog then r
    else
      var input := if r.transcript in p.inputs then p.inputs[r.transcript] else [];
      var (stub, resp) := Exec(r.stub, p.prog[r.transcript], answer, input, r.transcript in p.acks);
      RunState(stub, r.transcript + [resp])
  }

  ghost function RunFor(p: Simulation, ledger: Ledger, n: nat): RunState {
    if n == 0 then RunState(FRESH, []) else Advance(p, RunFor(p, ledger, n - 1), Answer(ledger, n - 1))
  }

  function DeltaWrites(writes: seq<KVWrite>): seq<KVWrite> {
    if |writes| == 0 then []
    else
      var rest := DeltaWrites(writes[..|writes| - 1]);
      if writes[|writes| - 1].delta.Some? then rest + [writes[|writes| - 1]] else rest
  }

  /** Two runs that have not read are the same run; once they have read, their delta writes are frozen and equal. */
  ghost predicate Coupled(a: RunState, b: RunState) {
    && a.stub.didRead == b.stub.didRead
    && (if a.stub.didRead then DeltaWrites(a.stub.writes) == DeltaWrites(b.stub.writes) else a == b)
  }

  lemma AfterReadFrozen(st: StubState, call: Call, state: Bytes, input: Bytes, ack: bool)
    requires st.didRead
    ensures Exec(st, call, state, input, ack).0.didRead
    ensures DeltaWrites(Exec(st, call, state, input, ack).0.writes) == DeltaWrites(st.writes)
  {
    var st' := Exec(st, call, state, input, ack).0;
    if st'.writes != st.writes {
      assert st'.writes[..|st'.writes| - 1] == st.writes;
    }
  }

  lemma CoupledAdvance(p: Simulation, a: RunState, b: RunState, x: Bytes, y: Bytes)
    requires Coupled(a, b)
    ensures Coupled(Advance(p, a, x), Advance(p, b, y))
  {
    if a.stub.didRead {
      FrozenAdvance(p, a, x);
      FrozenAdvance(p, b, y);
    }
  }

  lemma FrozenAdvance(p: Simulation, a: RunState, x: Bytes)
    requires a.stub.didRead
    ensures Advance(p, a, x).stub.didRead
    ensures DeltaWrites(Advance(p, a, x).stub.writes) == DeltaWrites(a.stub.writes)
  {
    if a.transcript in p.prog {
      var input := if a.transcript in p.inputs then p.inputs[a.transcript] else [];
      AfterReadFrozen(a.stub, p.prog[a.transcript], x, input, a.transcript in p.acks);
    }
  }

  lemma {:induction false} RunsCoupled(p: Simulation, one: Ledger, two: Ledger, n: nat)
    ensures Coupled(RunFor(p, one, n), RunFor(p, two, n))
  {
    if n > 0 {
      RunsCoupled(p, one, two, n - 1);
      CoupledAdvance(p, RunFor(p, one, n - 1), RunFor(p, two, n - 1), Answer(one, n - 1), Answer(two, n - 1));
    }
  }

  /**
   Endorsement non-interference: whatever two ledgers hold, a deterministic chaincode has the same sequence of
   delta writes accepted against both, after every number of stub calls.
   */
  lemma NonInterference(p: Simulation, one: Ledger, two: Ledger, n: nat)
    ensures DeltaWrites(RunFor(p, one, n).stub.writes) == DeltaWrites(RunFor(p, two, n).stub.writes)
  {
    RunsCoupled(p, one, two, n);
  }

  // ---------- from endorsement to commit ----------

  /** What every sequence of stub calls keeps. */
  ghost predicate Disciplined(st: StubState) {
    && st.plainKeys !! st.deltaKeys
    && forall i :: 0 <= i < |st.writes| ==> ProperWrite(st, st.writes[i])
  }

  ghost predicate ProperWrite(st: StubState, w: KVWrite) {
    match w.delta
    case None => w.key in st.plainKeys
    case Some(d) =>
      && w.key in st.deltaKeys && |w.value| == 0 && !w.isDelete
      && ToDelta(d).Ok? && ProperDelta(ToDelta(d).value)
  }

  lemma ExecDisciplined(st: StubState, call: Call, state: Bytes, input: Bytes, ack: bool)
    requires Disciplined(st)
    ensures Disciplined(Exec(st, call, state, input, ack).0)
  {
    var st' := Exec(st, call, state, input, ack).0;
    forall i | 0 <= i < |st'.writes| ensures ProperWrite(st', st'.writes[i]) {
      if i < |st.writes| {
        assert st'.writes[i] == st.writes[i] && ProperWrite(st, st.writes[i]);
      }
    }
  }

  lemma {:induction false} RunDisciplined(p: Simulation, ledger: Ledger, n: nat)
    ensures Disciplined(RunFor(p, ledger, n).stub)
  {
    if n > 0 {
      RunDisciplined(p, ledger, n - 1);
      var r := RunFor(p, ledger, n - 1);
      if r.transcript in p.prog {
        var input := if r.transcript in p.inputs then p.inputs[r.transcript] else [];
        ExecDisciplined(r.stub, p.prog[r.transcript], Answer(ledger, n - 1), input, r.transcript in p.acks);
      }
    }
  }

  /**
   The write set of any run, however the simulator thins out repeated plain writes, is well formed at commit, and
   every descriptor in it decodes to a proper delta, the same at commit and in the history query.
   */
  lemma EndorsedIsWellFormed(p: Simulation, ledger: Ledger, n: nat, ns: Bytes, kvs: seq<KVWrite>)
    requires forall w :: w in kvs ==> w in RunFor(p, ledger, n).stub.writes
    ensures WellFormed([NsRwSet(ns, kvs)])
    ensures Decodable(Writes([NsRwSet(ns, kvs)]))
    ensures forall w :: w in kvs && w.delta.Some? ==>
              var d := History.DeltaFromDescriptor(w.delta.value); d.Some? && ProperDelta(d.value) && ToDelta(w.delta.value) == Ok(d.value)
  {
    var st := RunFor(p, ledger, n).stub;
    RunDisciplined(p, ledger, n);
    forall w | w in kvs ensures ProperWrite(st, w) {
      var i :| 0 <= i < |st.writes| && st.writes[i] == w;
    }
    assert WellFormedSection(kvs);
    var tx := [NsRwSet(ns, kvs)];
    forall w | w in Writes(tx) ensures w.kv in kvs {
      WriteInSection(tx, w);
    }
  }

  // ---------- what is recorded is what was asked for ----------

  /** The write that a call asks for. */
  function Requested(call: Call): Option<KVWrite> {
    match call
    case PutState(key, value) => Some(KVWrite(key, value, false, None))
    case DelState(key) => Some(KVWrite(key, [], true, None))
    case PutDelta(key, typeId, op, arg, schemaVersion) =>
      Some(KVWrite(key, [], false, Some(Descriptor(typeId, op, arg, schemaVersion))))
    case _ => None
  }

  /** An acknowledged call records the write it asks for, and every other call records nothing. */
  lemma ExecRecords(st: StubState, call: Call, state: Bytes, input: Bytes, ack: bool)
    ensures var (st', resp) := Exec(st, call, state, input, ack);
            st'.writes == st.writes + if resp == Ack && Requested(call).Some? then [Requested(call).value] else []
  {
  }

  /**
   Exactly when a delta is accepted, and what it then means: the recorded descriptor decodes, at commit and in the
   history query, to the op and amount of the call.
   */
  lemma DeltaCallExactly(st: StubState, key: Bytes, typeId: Bytes, op: PbOp, arg: Bytes, schemaVersion: Bytes, ack: bool)
    ensures var (st', resp) := Exec(st, PutDelta(key, typeId, op, arg, schemaVersion), [], [], ack);
            var proper := (op == ADD || op == SUB) && |arg| == 8 && Decode(arg).value >= 0;
            && resp == (if |key| == 0 then EmptyKey else if st.didRead then AfterRead
                        else if key in st.plainKeys then PlainAndDelta else if !proper then BadDelta
                        else if ack then Ack else PeerError)
            && (resp != Ack && resp != PeerError ==> st' == st)
            && (resp == Ack || resp == PeerError ==> st'.deltaKeys == st.deltaKeys + {key} && st'.plainKeys == st.plainKeys && st'.didRead == st.didRead)
            && (proper ==>
                  var d := Delta(if op == ADD then OP_ADD else OP_SUB, Decode(arg).value);
                  && ToDelta(Descriptor(typeId, op, arg, schemaVersion)) == Ok(d)
                  && History.DeltaFromDescriptor(Descriptor(typeId, op, arg, schemaVersion)) == Some(d))
  {
    hide Decode;
  }

  /** A plain write is refused exactly on an empty key, a delete is not even then, and both on a key with a delta. */
  lemma PlainCallExactly(st: StubState, call: Call, ack: bool)
    requires call.PutState? || call.DelState?
    ensures var (st', resp) := Exec(st, call, [], [], ack);
            && resp == (if call.PutState? && |call.key| == 0 then EmptyKey else if call.key in st.deltaKeys then PlainAndDelta
                        else if ack then Ack else PeerError)
            && (resp != Ack && resp != PeerError ==> st' == st)
            && (resp == Ack || resp == PeerError ==> st'.plainKeys == st.plainKeys + {call.key} && st'.deltaKeys == st.deltaKeys && st'.didRead == st.didRead)
  {
  }

  /** The writes of the acknowledged calls, in order. */
  ghost function AckedWrites(p: Simulation, t: seq<Response>): seq<KVWrite> {
    if |t| == 0 then []
    else
      var before := t[..|t| - 1];
      AckedWrites(p, before)
      + if t[|t| - 1] == Ack && before in p.prog && Requested(p.prog[before]).Some? then [Requested(p.prog[before]).value] else []
  }

  /** The write set of a run is exactly that: nothing else, nothing lost, nothing altered, in order. */
  lemma {:induction false} RecordedExactly(p: Simulation, ledger: Ledger, n: nat)
    ensures RunFor(p, ledger, n).stub.writes == AckedWrites(p, RunFor(p, ledger, n).transcript)
  {
    hide Exec, Requested;
    if n > 0 {
      RecordedExactly(p, ledger, n - 1);
      var r := RunFor(p, ledger, n - 1);
      if r.transcript in p.prog {
        var input := if r.transcript in p.inputs then p.inputs[r.transcript] else [];
        ExecRecords(r.stub, p.prog[r.transcript], Answer(ledger, n - 1), input, r.transcript in p.acks);
        var t := RunFor(p, ledger, n).transcript;
        assert t[..|t| - 1] == r.transcript;
      }
    }
  }

  /** Some call of the run was a read. */
  ghost predicate WasRead(p: Simulation, t: seq<Response>) {
    |t| > 0 && var before := t[..|t| - 1]; WasRead(p, before) || (before in p.prog && p.prog[before].Read?)
  }

  /** The keys of the deltas, or of the plain writes and deletes, that the stub let through to the peer. */
  ghost function SentKeys(p: Simulation, t: seq<Response>, delta: bool): set<Bytes> {
    if |t| == 0 then {}
    else
      var before, resp := t[..|t| - 1], t[|t| - 1];
      SentKeys(p, before, delta)
      + if before in p.prog && (resp == Ack || resp == PeerError) then KeyOf(p.prog[before], delta) else {}
  }

  function KeyOf(call: Call, delta: bool): set<Bytes> {
    match call
    case PutDelta(key, _, _, _, _) => if delta then {key} else {}
    case PutState(key, _) => if delta then {} else {key}
    case DelState(key) => if delta then {} else {key}
    case _ => {}
  }

  lemma ExecRemembers(st: StubState, call: Call, state: Bytes, input: Bytes, ack: bool)
    ensures var (st', resp) := Exec(st, call, state, input, ack);
            var sent := resp == Ack || resp == PeerError;
            && st'.didRead == (st.didRead || call.Read?)
            && st'.plainKeys == st.plainKeys + (if sent then KeyOf(call, false) else {})
            && st'.deltaKeys == st.deltaKeys + if sent then KeyOf(call, true) else {}
  {
  }

  /** The gate's memory over runs: it knows of a read exactly if there was one, and of a key exactly if it was sent so. */
  lemma {:induction false} GateRemembers(p: Simulation, ledger: Ledger, n: nat)
    ensures var r := RunFor(p, ledger, n);
            && r.stub.didRead == WasRead(p, r.transcript)
            && r.stub.plainKeys == SentKeys(p, r.transcript, false)
            && r.stub.deltaKeys == SentKeys(p, r.transcript, true)
  {
    hide Exec, KeyOf;
    if n > 0 {
      GateRemembers(p, ledger, n - 1);
      var r := RunFor(p, ledger, n - 1);
      if r.transcript in p.prog {
        var input := if r.transcript in p.inputs then p.inputs[r.transcript] else [];
        ExecRemembers(r.stub, p.prog[r.transcript], Answer(ledger, n - 1), input, r.transcript in p.acks);
        var t := RunFor(p, ledger, n).transcript;
        assert t[..|t| - 1] == r.transcript;
      }
    }
  }
}
