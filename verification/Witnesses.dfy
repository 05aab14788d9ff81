/**
 Ledgers that show the failing cases to be real: each is reached from the empty ledger by VALID transactions, with
 the deployed schema storage keys.
 */
module Witnesses {
  import opened Prelude
  import opened Int64
  import opened TypedDelta
  import opened SchemaKey
  import opened RwSet
  import opened Validation
  import opened Chaincode
  import Hooks
  import Analyzer

  const A: Key := Key([99], [97])
  const B: Key := Key([99], [98])

  /** The bytes of the one schema record: NONNEG, both ops. */
  const RECORD: Bytes := [1]
  const SCHEMA: StoredSchema := StoredSchema(TYPE_ID, [1, 2], NONNEG, 0, 0, [])

  ghost const LEDGER: Config := Deployed(imap[RECORD := SCHEMA], true)

  function PlainTx(k: Key, b: Bytes): TxRwSet {
    [NsRwSet(k.ns, [KVWrite(k.key, b, false, None)])]
  }

  /** A plain write to an ungoverned key is VALID and changes that key only. */
  lemma PlainStep(cfg: Config, s: Store, k: Key, b: Bytes)
    requires |b| > 0 && SchemaOf(cfg, s, k).NoSchema?
    ensures Accepts(cfg, s, PlainTx(k, b))
    ensures forall j :: Get(Step(cfg, s, PlainTx(k, b)), j) == if j == k then b else Get(s, j)
  {
    var tx, w := PlainTx(k, b), Write(k, KVWrite(k.key, b, false, None));
    assert tx[1..] == [];
    assert Writes(tx) == SectionWrites(tx[0]) == [w];
    assert Untyped(cfg, s, [w]);
    assert [w][1..] == [];
    forall j ensures NewValue(s, [w], j) == if j == k then b else Get(s, j) {
      assert !HasDelta([w], j);
      assert PlainEffect([w], j) == if k == j then Some(b) else None;
    }
  }

  /** The schema records of A and B are two keys, neither of them A, B or governed by one of these. */
  lemma Apart()
    ensures var a, b := SchemaRecord(LEDGER, A), SchemaRecord(LEDGER, B);
            && a != b && A != B && a.ns == b.ns == A.ns
            && (forall k :: SchemaRecord(LEDGER, k) != A && SchemaRecord(LEDGER, k) != B)
            && SchemaRecord(LEDGER, b) != a
  {
    hide SchemaStorageKey;
    var parse := imap[RECORD := SCHEMA];
    assert !ReservedKey(A.key) && !ReservedKey(B.key);
    RecordsAreSeparate(parse, true, A, B);
    forall k ensures SchemaRecord(LEDGER, k) != A && SchemaRecord(LEDGER, k) != B {
      RecordsAreSeparate(parse, true, k, A);
      RecordsAreSeparate(parse, true, k, B);
    }
    RecordsAreSeparate(parse, true, SchemaRecord(LEDGER, B), A);
  }

  /** A gets the given bytes while it has no schema, then A and B get the schema. */
  ghost function Setup(a: Bytes): seq<TxRwSet> {
    [PlainTx(A, a), PlainTx(SchemaRecord(LEDGER, A), RECORD), PlainTx(SchemaRecord(LEDGER, B), RECORD)]
  }

  ghost predicate Ready(s: Store, a: Bytes) {
    && Get(s, A) == a && Get(s, B) == []
    && SchemaOf(LEDGER, s, A) == Found(SCHEMA) && SchemaOf(LEDGER, s, B) == Found(SCHEMA)
  }

  lemma SetupReady(a: Bytes)
    requires |a| > 0
    ensures Balances.AllAccepted(LEDGER, map[], Setup(a))
    ensures Ready(Run(LEDGER, map[], Setup(a)), a)
  {
    hide Accepts, Step, SchemaRecord, PlainTx;
    Apart();
    var recA, recB := SchemaRecord(LEDGER, A), SchemaRecord(LEDGER, B);
    var txs := Setup(a);
    PlainStep(LEDGER, map[], A, a);
    var s1 := Step(LEDGER, map[], txs[0]);
    PlainStep(LEDGER, s1, recA, RECORD);
    var s2 := Step(LEDGER, s1, txs[1]);
    PlainStep(LEDGER, s2, recB, RECORD);
    var s3 := Step(LEDGER, s2, txs[2]);
    ThreeSteps(map[], txs);
  }

  lemma ThreeSteps(s: Store, txs: seq<TxRwSet>)
    requires |txs| == 3
    ensures var s1 := Step(LEDGER, s, txs[0]);
            var s2 := Step(LEDGER, s1, txs[1]);
            && Run(LEDGER, s, txs) == Step(LEDGER, s2, txs[2])
            && (Balances.AllAccepted(LEDGER, s, txs) <==>
                  Accepts(LEDGER, s, txs[0]) && Accepts(LEDGER, s1, txs[1]) && Accepts(LEDGER, s2, txs[2]))
  {
    hide Accepts, Step;
    assert txs[1..][1..] == txs[2..] && txs[1..][0] == txs[1] && txs[2..][0] == txs[2] && txs[2..][1..] == [];
    var s1 := Step(LEDGER, s, txs[0]);
    var s2 := Step(LEDGER, s1, txs[1]);
    assert Run(LEDGER, s2, txs[2..]) == Step(LEDGER, s2, txs[2]);
    assert Balances.AllAccepted(LEDGER, s2, txs[2..]) <==> Accepts(LEDGER, s2, txs[2]);
  }

  function DeltaTo(k: Key, op: PbOp): Write {
    Write(k, KVWrite(k.key, [], false, Some(Descriptor(TYPE_ID, op, Encode(1), []))))
  }

  /** Two deltas of 1 in one namespace. */
  function TwoDeltas(k: Key, op: PbOp, j: Key, op': PbOp): TxRwSet {
    [NsRwSet(k.ns, [DeltaTo(k, op).kv, DeltaTo(j, op').kv])]
  }

  lemma TwoDeltaWrites(s: Store, k: Key, op: PbOp, j: Key, op': PbOp)
    requires k.ns == j.ns && !op.OtherOp? && !op'.OtherOp?
    requires SchemaOf(LEDGER, s, k) == SchemaOf(LEDGER, s, j) == Found(SCHEMA)
    ensures var tx := TwoDeltas(k, op, j, op');
            && Writes(tx) == [DeltaTo(k, op), DeltaTo(j, op')] && WellFormed(tx)
            && DeltaMatches(LEDGER, s, DeltaTo(k, op)) && DeltaMatches(LEDGER, s, DeltaTo(j, op'))
  {
    hide Encode, Decode;
    var tx := TwoDeltas(k, op, j, op');
    assert tx[1..] == [];
    assert Writes(tx) == SectionWrites(tx[0]) == [DeltaTo(k, op), DeltaTo(j, op')];
    assert SCHEMA.allowedOps[0] == 1 && SCHEMA.allowedOps[1] == 2;
    assert 1 in SCHEMA.allowedOps && 1 % 256 == OP_ADD && 2 in SCHEMA.allowedOps && 2 % 256 == OP_SUB;
  }

  lemma DeltasOfTwo(k: Key, op: PbOp, j: Key, op': PbOp, d: Delta, d': Delta)
    requires ToDelta(DeltaTo(k, op).kv.delta.value) == Ok(d) && ToDelta(DeltaTo(j, op').kv.delta.value) == Ok(d')
    ensures var ws := [DeltaTo(k, op), DeltaTo(j, op')];
            && DeltasOf(ws, j) == (if k == j then [d] else []) + [d']
            && DeltaKeys(ws) == {k, j}
  {
    hide ToDelta, Encode;
    var v, w := DeltaTo(k, op), DeltaTo(j, op');
    var ws := [v, w];
    assert ws[1..] == [w] && [w][1..] == [];
    assert DeltasOf([w], j) == [d'];
    assert ws[0] == v && ws[1] == w && v in ws && w in ws;
  }

  /**
   The verdict really can depend on the map order: A holds one stray byte from before its schema, B is empty, and a
   transaction debits both.
   */
  lemma OrderCanMatter()
    ensures Balances.AllAccepted(LEDGER, map[], Setup([0]))
    ensures Hooks.OrderMatters(LEDGER, Run(LEDGER, map[], Setup([0])), TwoDeltas(A, SUB, B, SUB))
  {
    hide Run, Setup, Balances.AllAccepted, Ready, Hooks.OrderMatters, TwoDeltas;
    SetupReady([0]);
    DebitBoth(Run(LEDGER, map[], Setup([0])));
  }

  lemma DebitBoth(s: Store)
    requires Ready(s, [0])
    ensures Hooks.OrderMatters(LEDGER, s, TwoDeltas(A, SUB, B, SUB))
  {
    hide SchemaOf, WellFormed, DeltaMatches, DeltasOf, DeltaKeys, Encode, Hooks.OrderMatters, TwoDeltas, Writes;
    TwoDeltaWrites(s, A, SUB, B, SUB);
    OneDown(A);
    OneDown(B);
    DeltasOfTwo(A, SUB, B, SUB, Delta(OP_SUB, 1), Delta(OP_SUB, 1));
    assert [] + [Delta(OP_SUB, 1)] == [Delta(OP_SUB, 1)];
    MattersHere(s, TwoDeltas(A, SUB, B, SUB));
  }

  lemma OneDown(k: Key)
    ensures ToDelta(DeltaTo(k, SUB).kv.delta.value) == Ok(Delta(OP_SUB, 1))
  {
    hide Encode, Decode;
  }

  lemma MattersHere(s: Store, tx: TxRwSet)
    requires Writes(tx) == [DeltaTo(A, SUB), DeltaTo(B, SUB)] && WellFormed(tx)
    requires DeltaMatches(LEDGER, s, DeltaTo(A, SUB)) && DeltaMatches(LEDGER, s, DeltaTo(B, SUB))
    requires SchemaOf(LEDGER, s, B) == Found(SCHEMA) && Current(s, A).None? && Current(s, B) == Some(0)
    requires DeltasOf(Writes(tx), B) == [Delta(OP_SUB, 1)] && DeltaKeys(Writes(tx)) == {A, B}
    ensures Hooks.OrderMatters(LEDGER, s, tx)
  {
    hide SchemaOf, WellFormed, DeltaMatches, DeltasOf, DeltaKeys, Encode, Foldable, Current, Sum;
    SingleSum(Delta(OP_SUB, 1));
    var ws := Writes(tx);
    assert forall w {:trigger w in ws} :: w in ws ==> w == DeltaTo(A, SUB) || w == DeltaTo(B, SUB);
    assert A in DeltaKeys(ws) && B in DeltaKeys(ws);
    assert !KeyAccepts(LEDGER, s, ws, B);
  }

  /**
   The ledger sums the deltas first and the analyzer adds them one at a time: at the largest int64 a credit of 1
   followed by a debit of 1 is VALID and changes nothing, while the analyzer skips the credit and ends 1 too low.
   */
  lemma AnalyzerSkipsACredit(o: Analyzer.Options, r: Analyzer.Replay)
    requires Analyzer.Tracked(o, A) && Analyzer.Bal(r, A) == MAX_INT64
    ensures
      var s, tx := Run(LEDGER, map[], Setup(Encode(MAX_INT64))), TwoDeltas(A, ADD, A, SUB);
      var r' := Analyzer.ReplayWrites(o, r, Writes(tx));
      && Balances.AllAccepted(LEDGER, map[], Setup(Encode(MAX_INT64))) && Current(s, A) == Some(MAX_INT64)
      && Accepts(LEDGER, s, tx) && Current(ApplyTx(s, Writes(tx)), A) == Some(MAX_INT64)
      && r'.overflowEvents == r.overflowEvents + 1 && Analyzer.Bal(r', A) == MAX_INT64 - 1
  {
    SetupReady(Encode(MAX_INT64));
    hide Run, Setup, Balances.AllAccepted, SchemaOf, WellFormed, DeltaMatches, DeltasOf, DeltaKeys, Encode, Decode;
    var s, tx := Run(LEDGER, map[], Setup(Encode(MAX_INT64))), TwoDeltas(A, ADD, A, SUB);
    var up, down := Delta(OP_ADD, 1), Delta(OP_SUB, 1);
    TwoDeltaWrites(s, A, ADD, A, SUB);
    DeltasOfTwo(A, ADD, A, SUB, up, down);
    assert [up] + [down] == [up, down];
    UpAndDown();
    assert Current(s, A) == Some(MAX_INT64);
    UpDownAccepted(s, tx);
    SkipsCredit(o, r);
  }

  lemma UpAndDown()
    ensures var ds := [Delta(OP_ADD, 1), Delta(OP_SUB, 1)]; Foldable(ds) && Sum(ds) == 0
  {
    var up, down := Delta(OP_ADD, 1), Delta(OP_SUB, 1);
    SingleSum(up);
    assert [up, down][..1] == [up];
  }

  lemma UpDownAccepted(s: Store, tx: TxRwSet)
    requires Writes(tx) == [DeltaTo(A, ADD), DeltaTo(A, SUB)] && WellFormed(tx)
    requires DeltaMatches(LEDGER, s, DeltaTo(A, ADD)) && DeltaMatches(LEDGER, s, DeltaTo(A, SUB))
    requires SchemaOf(LEDGER, s, A) == Found(SCHEMA) && Current(s, A) == Some(MAX_INT64)
    requires Foldable(DeltasOf(Writes(tx), A)) && Sum(DeltasOf(Writes(tx), A)) == 0
    ensures Accepts(LEDGER, s, tx) && Current(ApplyTx(s, Writes(tx)), A) == Some(MAX_INT64)
  {
    hide SchemaOf, WellFormed, DeltaMatches, DeltasOf, Decode, Sum, Foldable;
    var ws := Writes(tx);
    assert ws[0] in ws && IsDelta(ws[0]) && HasDelta(ws, A);
    assert KeyAccepts(LEDGER, s, ws, A);
    assert TypedAccepts(LEDGER, s, tx);
    assert Get(ApplyTx(s, ws), A) == NewValue(s, ws, A) == Encode(MAX_INT64);
  }

  lemma SkipsCredit(o: Analyzer.Options, r: Analyzer.Replay)
    requires Analyzer.Tracked(o, A) && Analyzer.Bal(r, A) == MAX_INT64
    ensures var r' := Analyzer.ReplayWrites(o, r, [DeltaTo(A, ADD), DeltaTo(A, SUB)]);
            r'.overflowEvents == r.overflowEvents + 1 && Analyzer.Bal(r', A) == MAX_INT64 - 1
  {
    var ws := [DeltaTo(A, ADD), DeltaTo(A, SUB)];
    assert ws[1..] == [DeltaTo(A, SUB)] && ws[1..][1..] == [];
    var r1 := Analyzer.ReplayWrite(o, r, ws[0]);
    assert r1.overflowEvents == r.overflowEvents + 1 && r1.bal == r.bal;
    var r2 := Analyzer.ReplayWrite(o, r1, ws[1]);
    assert Analyzer.ReplayWrites(o, r2, []) == r2;
    assert Analyzer.ReplayWrites(o, r1, ws[1..]) == r2;
  }
}
