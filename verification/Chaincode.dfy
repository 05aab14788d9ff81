/**
 The transactions of chaincode/typed-delta-cc.go against the deployed schema storage keys: conservation over runs of
 Add, Sub and Transfer, and why success depends on order.
 */
module Chaincode {
  import opened Prelude
  import opened Int64
  import opened TypedDelta
  import opened SchemaKey
  import opened RwSet
  import opened Validation
  import opened Balances
  import Shim

  /** The ledger as deployed: schema records live under the base64url storage keys. */
  ghost function Deployed(parse: imap<Bytes, StoredSchema>, enabled: bool): Config {
    Config(parse, imap key: Bytes | true :: SchemaStorageKey(key), enabled)
  }

  /** A schema record governs one key only, and no data key the chaincode accepts is a schema record. */
  lemma RecordsAreSeparate(parse: imap<Bytes, StoredSchema>, enabled: bool, a: Key, b: Key)
    ensures SchemaRecord(Deployed(parse, enabled), a) == SchemaRecord(Deployed(parse, enabled), b) ==> a == b
    ensures !ReservedKey(b.key) ==> SchemaRecord(Deployed(parse, enabled), a) != b
  {
    SchemaKeyRoundTrip(a.key);
    SchemaKeyRoundTrip(b.key);
  }

  /** The chaincode's type id. */
  const TYPE_ID: Bytes := Ascii("balance_int64")

  datatype Request =
    | AddTo(key: Bytes, n: int64, version: Bytes)
    | SubFrom(key: Bytes, n: int64, version: Bytes)
    | Transfer(src: Bytes, dst: Bytes, n: int64, version: Bytes)

  /** One `PutDelta` of the chaincode, with the amount in canonical bytes. */
  function DeltaWrite(key: Bytes, op: PbOp, n: int64, version: Bytes): Option<KVWrite> {
    if |key| == 0 then None
    else
      match Shim.BuildShimDelta(TYPE_ID, op, Encode(n), version)
      case None => None
      case Some(d) => Some(KVWrite(key, [], false, Some(d)))
  }

  /** The write set the request produces in the chaincode's namespace; None where the chaincode returns an error. */
  function Endorse(ns: Bytes, req: Request): Option<TxRwSet> {
    match req
    case AddTo(key, n, version) => if ReservedKey(key) then None else OneWrite(ns, DeltaWrite(key, ADD, n, version))
    case SubFrom(key, n, version) => if ReservedKey(key) then None else OneWrite(ns, DeltaWrite(key, SUB, n, version))
    case Transfer(src, dst, n, version) =>
      if ReservedKey(src) || ReservedKey(dst) then None
      else
        match (DeltaWrite(src, SUB, n, version), DeltaWrite(dst, ADD, n, version))
        case (Some(debit), Some(credit)) => Some([NsRwSet(ns, [debit, credit])])
        case _ => None
  }

  function OneWrite(ns: Bytes, w: Option<KVWrite>): Option<TxRwSet> {
    match w
    case None => None
    case Some(kv) => Some([NsRwSet(ns, [kv])])
  }

  /** What the request asks to add to the sum of all balances. */
  function Moves(req: Request): int {
    match req
    case AddTo(_, n, _) => n
    case SubFrom(_, n, _) => -(n as int)
    case Transfer(_, _, _, _) => 0
  }

  /** Every endorsed request is a delta-only transaction that moves exactly what it asks for, also when src is dst. */
  lemma EndorsedMoves(ns: Bytes, req: Request)
    requires Endorse(ns, req).Some?
    ensures DeltaOnly(Writes(Endorse(ns, req).value))
    ensures NetAll(Writes(Endorse(ns, req).value)) == Moves(req)
  {
    var tx := Endorse(ns, req).value;
    assert tx[1..] == [];
    assert Writes(tx) == SectionWrites(tx[0]);
    var ws := Writes(tx);
    if req.Transfer? {
      assert ws == [ws[0], ws[1]] && ws[1..] == [ws[1]] && [ws[1]][1..] == [];
      assert NetAll(ws[1..]) == WriteAmount(ws[1]);
    } else {
      assert ws == [ws[0]] && ws[1..] == [];
    }
  }

  /** Exactly the requests that endorse: a non-negative amount, and keys that are neither empty nor reserved. */
  lemma EndorsesExactly(ns: Bytes, req: Request)
    ensures Endorse(ns, req).Some? <==>
              && req.n >= 0
              && match req
                 case AddTo(key, _, _) => |key| > 0 && !ReservedKey(key)
                 case SubFrom(key, _, _) => |key| > 0 && !ReservedKey(key)
                 case Transfer(src, dst, _, _) => |src| > 0 && |dst| > 0 && !ReservedKey(src) && !ReservedKey(dst)
  {
    hide ReservedKey;
  }

  /** What a request asks to add to the balance of k. */
  function MovesTo(ns: Bytes, req: Request, k: Key): int {
    match req
    case AddTo(key, n, _) => if k == Key(ns, key) then n else 0
    case SubFrom(key, n, _) => if k == Key(ns, key) then -(n as int) else 0
    case Transfer(src, dst, n, _) => (if k == Key(ns, dst) then n else 0) - if k == Key(ns, src) then n else 0
  }

  /** Key by key: Add credits its key, Sub debits it, Transfer debits the source and credits the destination. */
  lemma EndorsedMovesTo(ns: Bytes, req: Request, k: Key)
    requires Endorse(ns, req).Some?
    ensures Net(Writes(Endorse(ns, req).value), k) == MovesTo(ns, req, k)
  {
    hide Net, ReservedKey, Decode;
    var tx := Endorse(ns, req).value;
    assert tx[1..] == [];
    assert Writes(tx) == SectionWrites(tx[0]);
    var ws := Writes(tx);
    NetCons(ws, k);
    if req.Transfer? {
      assert ws == [ws[0], ws[1]] && ws[1..] == [ws[1]] && [ws[1]][1..] == [];
      NetCons(ws[1..], k);
    } else {
      assert ws == [ws[0]] && ws[1..] == [];
    }
    NetNothing(k);
  }

  lemma NetNothing(k: Key)
    ensures Net([], k) == 0
  {
  }

  /** The transactions of the requests that endorse. */
  ghost function Txs(ns: Bytes, reqs: seq<Request>): seq<TxRwSet> {
    if |reqs| == 0 then []
    else (if Endorse(ns, reqs[0]).Some? then [Endorse(ns, reqs[0]).value] else []) + Txs(ns, reqs[1..])
  }

  /** Accepted credits minus accepted debits, read off the requests. */
  ghost function AcceptedMoves(cfg: Config, s: Store, ns: Bytes, reqs: seq<Request>): int
    decreases |reqs|
  {
    if |reqs| == 0 then 0
    else if Endorse(ns, reqs[0]).None? then AcceptedMoves(cfg, s, ns, reqs[1..])
    else
      var tx := Endorse(ns, reqs[0]).value;
      (if Accepts(cfg, s, tx) then Moves(reqs[0]) else 0) + AcceptedMoves(cfg, Step(cfg, s, tx), ns, reqs[1..])
  }

  lemma {:induction false} TxsDeltaOnly(ns: Bytes, reqs: seq<Request>)
    ensures AllDeltaOnly(Txs(ns, reqs))
  {
    hide Endorse, DeltaOnly, Writes;
    if |reqs| > 0 {
      TxsDeltaOnly(ns, reqs[1..]);
      if Endorse(ns, reqs[0]).Some? {
        EndorsedMoves(ns, reqs[0]);
      }
    }
  }

  lemma {:induction false} MovesAreNet(cfg: Config, s: Store, ns: Bytes, reqs: seq<Request>)
    ensures AcceptedNet(cfg, s, Txs(ns, reqs)) == AcceptedMoves(cfg, s, ns, reqs)
    decreases |reqs|
  {
    hide Accepts, Step, Endorse, NetAll, Moves, Writes;
    if |reqs| > 0 {
      var rest := Txs(ns, reqs[1..]);
      if Endorse(ns, reqs[0]).Some? {
        var tx := Endorse(ns, reqs[0]).value;
        EndorsedMoves(ns, reqs[0]);
        MovesAreNet(cfg, Step(cfg, s, tx), ns, reqs[1..]);
        assert Txs(ns, reqs)[0] == tx && Txs(ns, reqs)[1..] == rest;
      } else {
        MovesAreNet(cfg, s, ns, reqs[1..]);
        assert Txs(ns, reqs) == rest;
      }
    }
  }

  /**
   Conservation over mixed runs: the sum of all balances changes by the accepted credits minus the accepted debits,
   whatever is rejected on the way.
   */
  lemma RequestsConserve(cfg: Config, s: Store, ns: Bytes, reqs: seq<Request>, accounts: seq<Key>)
    requires Distinct(accounts) && Covers(accounts, Txs(ns, reqs))
    ensures Total(Run(cfg, s, Txs(ns, reqs)), accounts) == Total(s, accounts) + AcceptedMoves(cfg, s, ns, reqs)
  {
    TxsDeltaOnly(ns, reqs);
    Conservation(cfg, s, Txs(ns, reqs), accounts);
    MovesAreNet(cfg, s, ns, reqs);
  }

  /** What the accepted requests of a run ask to add to k. */
  ghost function AcceptedMovesTo(cfg: Config, s: Store, ns: Bytes, reqs: seq<Request>, k: Key): int
    decreases |reqs|
  {
    if |reqs| == 0 then 0
    else if Endorse(ns, reqs[0]).None? then AcceptedMovesTo(cfg, s, ns, reqs[1..], k)
    else
      var tx := Endorse(ns, reqs[0]).value;
      (if Accepts(cfg, s, tx) then MovesTo(ns, reqs[0], k) else 0) + AcceptedMovesTo(cfg, Step(cfg, s, tx), ns, reqs[1..], k)
  }

  /** Over every run of requests each balance changes by exactly what its accepted requests ask for. */
  lemma {:induction false} RequestsMoveBalances(cfg: Config, s: Store, ns: Bytes, reqs: seq<Request>, k: Key)
    ensures Balance(Run(cfg, s, Txs(ns, reqs)), k) == Balance(s, k) + AcceptedMovesTo(cfg, s, ns, reqs, k)
    decreases |reqs|
  {
    hide Accepts, ApplyTx, Endorse, MovesTo, Writes, Balance, Net;
    if |reqs| > 0 {
      var rest := Txs(ns, reqs[1..]);
      if Endorse(ns, reqs[0]).Some? {
        var tx := Endorse(ns, reqs[0]).value;
        EndorsedMoves(ns, reqs[0]);
        EndorsedMovesTo(ns, reqs[0], k);
        if Accepts(cfg, s, tx) {
          BalanceStep(cfg, s, tx, k);
        }
        RequestsMoveBalances(cfg, Step(cfg, s, tx), ns, reqs[1..], k);
        assert Txs(ns, reqs)[0] == tx && Txs(ns, reqs)[1..] == rest;
      } else {
        RequestsMoveBalances(cfg, s, ns, reqs[1..], k);
        assert Txs(ns, reqs) == rest;
      }
    }
  }

  lemma {:induction false} TransfersMoveNothing(cfg: Config, s: Store, ns: Bytes, reqs: seq<Request>)
    requires forall i :: 0 <= i < |reqs| ==> reqs[i].Transfer?
    ensures AcceptedMoves(cfg, s, ns, reqs) == 0
    decreases |reqs|
  {
    hide Accepts, Step, Endorse;
    if |reqs| > 0 {
      if Endorse(ns, reqs[0]).Some? {
        TransfersMoveNothing(cfg, Step(cfg, s, Endorse(ns, reqs[0]).value), ns, reqs[1..]);
      } else {
        TransfersMoveNothing(cfg, s, ns, reqs[1..]);
      }
    }
  }

  /** Over every run of transfers, accepted or not, the sum of all balances is constant. */
  lemma TransfersConserve(cfg: Config, s: Store, ns: Bytes, reqs: seq<Request>, accounts: seq<Key>)
    requires forall i :: 0 <= i < |reqs| ==> reqs[i].Transfer?
    requires Distinct(accounts) && Covers(accounts, Txs(ns, reqs))
    ensures Total(Run(cfg, s, Txs(ns, reqs)), accounts) == Total(s, accounts)
  {
    RequestsConserve(cfg, s, ns, reqs, accounts);
    TransfersMoveNothing(cfg, s, ns, reqs);
  }

  // ---------- success depends on order ----------

  /** The signed amount of an Add or Sub request. */
  function DeltaOf(req: Request): Delta
    requires !req.Transfer?
  {
    if req.AddTo? then Delta(OP_ADD, req.n) else Delta(OP_SUB, req.n)
  }

  /** Exactly when an Add or Sub is accepted. */
  ghost predicate Admissible(cfg: Config, s: Store, k: Key, d: Delta, version: Bytes) {
    var look := SchemaOf(cfg, s, k);
    && cfg.enabled && look.Found? && InvariantOf(look.schema).Some?
    && look.schema.typeId == TYPE_ID && look.schema.version == version && AllowsOp(look.schema, d.op)
    && Current(s, k).Some? && InRange(Current(s, k).value + Amount(d))
    && Holds(InvariantOf(look.schema).value, Current(s, k).value + Amount(d))
  }

  lemma SingleDelta(ns: Bytes, req: Request)
    requires !req.Transfer? && Endorse(ns, req).Some?
    ensures var w := Write(Key(ns, req.key), Endorse(ns, req).value[0].writes[0]);
            && Writes(Endorse(ns, req).value) == [w] && IsDelta(w) && w in [w]
            && w.kv.delta.value.typeId == TYPE_ID && w.kv.delta.value.schemaVersion == req.version
            && ToDelta(w.kv.delta.value) == Ok(DeltaOf(req)) && ProperDelta(DeltaOf(req))
            && DeltasOf([w], Key(ns, req.key)) == [DeltaOf(req)]
            && WellFormed(Endorse(ns, req).value)
  {
    var tx := Endorse(ns, req).value;
    var w := Write(Key(ns, req.key), tx[0].writes[0]);
    assert tx[1..] == [];
    assert Writes(tx) == SectionWrites(tx[0]) == [w];
    assert [w][1..] == [];
  }

  lemma SingleSum(d: Delta)
    ensures Sum([d]) == Amount(d)
    ensures ProperDelta(d) ==> Foldable([d])
  {
    assert [d][..|[d]| - 1] == [];
    assert Sum([d]) == Sum([]) + Amount(d);
    assert Foldable([]);
  }

  lemma AddSubExactly(cfg: Config, s: Store, ns: Bytes, req: Request)
    requires !req.Transfer? && Endorse(ns, req).Some?
    ensures Accepts(cfg, s, Endorse(ns, req).value) <==> Admissible(cfg, s, Key(ns, req.key), DeltaOf(req), req.version)
  {
    hide Accepts, Endorse, WellFormed, Admissible;
    SingleDelta(ns, req);
    OneDeltaExactly(cfg, s, Endorse(ns, req).value, Writes(Endorse(ns, req).value)[0], DeltaOf(req), req.version);
  }

  lemma OneDeltaExactly(cfg: Config, s: Store, tx: TxRwSet, w: Write, d: Delta, version: Bytes)
    requires Writes(tx) == [w] && IsDelta(w) && WellFormed(tx)
    requires w.kv.delta.value.typeId == TYPE_ID && w.kv.delta.value.schemaVersion == version
    requires ToDelta(w.kv.delta.value) == Ok(d) && ProperDelta(d) && DeltasOf([w], w.key) == [d]
    ensures Accepts(cfg, s, tx) <==> Admissible(cfg, s, w.key, d, version)
  {
    hide WellFormed, DeltasOf, DeltaMatches, KeyAccepts, Admissible;
    assert w in [w] && !Untyped(cfg, s, [w]);
    OneKeyExactly(cfg, s, [w], w, d, version);
  }

  /** The checks of one delta that is alone on its key. */
  lemma OneKeyExactly(cfg: Config, s: Store, ws: seq<Write>, w: Write, d: Delta, version: Bytes)
    requires IsDelta(w) && w.kv.delta.value.typeId == TYPE_ID && w.kv.delta.value.schemaVersion == version
    requires ToDelta(w.kv.delta.value) == Ok(d) && ProperDelta(d) && DeltasOf(ws, w.key) == [d]
    ensures cfg.enabled && DeltaMatches(cfg, s, w) && KeyAccepts(cfg, s, ws, w.key) <==> Admissible(cfg, s, w.key, d, version)
  {
    hide DeltasOf, ToDelta, Current;
    SingleSum(d);
  }

  /** After an accepted Add or Sub the key holds the sum, and its schema is as before. */
  lemma AddSubEffect(cfg: Config, s: Store, ns: Bytes, req: Request)
    requires !req.Transfer? && Endorse(ns, req).Some? && Accepts(cfg, s, Endorse(ns, req).value)
    requires SchemaRecord(cfg, Key(ns, req.key)) != Key(ns, req.key)
    ensures var t := Step(cfg, s, Endorse(ns, req).value);
            && Current(s, Key(ns, req.key)).Some?
            && Current(t, Key(ns, req.key)) == Some(Current(s, Key(ns, req.key)).value + Amount(DeltaOf(req)))
            && SchemaOf(cfg, t, Key(ns, req.key)) == SchemaOf(cfg, s, Key(ns, req.key))
  {
    hide Accepts, Endorse, WellFormed;
    var k := Key(ns, req.key);
    AddSubExactly(cfg, s, ns, req);
    SingleDelta(ns, req);
    SingleSum(DeltaOf(req));
    var ws := Writes(Endorse(ns, req).value);
    assert HasDelta(ws, k);
    assert Get(ApplyTx(s, ws), k) == NewValue(s, ws, k);
    Untouched(s, ws, SchemaRecord(cfg, k));
  }

  /**
   Success depends on order: on an empty NONNEG account, a credit followed by an equal debit is accepted
   throughout, the debit followed by the credit is not.
   */
  lemma OrderDecidesSuccess(cfg: Config, s: Store, ns: Bytes, key: Bytes, n: int64, version: Bytes)
    requires n > 0 && |key| > 0 && !ReservedKey(key)
    requires Admissible(cfg, s, Key(ns, key), Delta(OP_ADD, n), version)
    requires SchemaRecord(cfg, Key(ns, key)) != Key(ns, key) && Current(s, Key(ns, key)) == Some(0)
    requires InvariantOf(SchemaOf(cfg, s, Key(ns, key)).schema) == Some(NonNeg)
    requires AllowsOp(SchemaOf(cfg, s, Key(ns, key)).schema, OP_SUB)
    ensures
      var credit, debit := Endorse(ns, AddTo(key, n, version)), Endorse(ns, SubFrom(key, n, version));
      && credit.Some? && debit.Some?
      && AllAccepted(cfg, s, [credit.value, debit.value])
      && !AllAccepted(cfg, s, [debit.value, credit.value])
  {
    var add, sub := AddTo(key, n, version), SubFrom(key, n, version);
    var credit, debit := Endorse(ns, add).value, Endorse(ns, sub).value;
    hide Accepts, Endorse, Step;
    AddSubExactly(cfg, s, ns, add);
    AddSubExactly(cfg, s, ns, sub);
    AddSubEffect(cfg, s, ns, add);
    var t := Step(cfg, s, credit);
    AddSubExactly(cfg, t, ns, sub);
    assert [credit, debit][1..] == [debit] && [debit][1..] == [];
    assert AllAccepted(cfg, t, [debit]);
  }

  // ---------- transfers ----------

  /** A debit and a credit of n. */
  ghost predicate IsTransfer(ws: seq<Write>, src: Key, dst: Key, n: int64, version: Bytes) {
    && |ws| == 2 && IsDelta(ws[0]) && IsDelta(ws[1]) && ws[0].key == src && ws[1].key == dst
    && (forall i :: 0 <= i < 2 ==> ws[i].kv.delta.value.typeId == TYPE_ID && ws[i].kv.delta.value.schemaVersion == version)
    && ToDelta(ws[0].kv.delta.value) == Ok(Delta(OP_SUB, n)) && ToDelta(ws[1].kv.delta.value) == Ok(Delta(OP_ADD, n))
    && n >= 0
  }

  lemma TransferWrites(ns: Bytes, req: Request)
    requires req.Transfer? && Endorse(ns, req).Some?
    ensures var tx := Endorse(ns, req).value;
            IsTransfer(Writes(tx), Key(ns, req.src), Key(ns, req.dst), req.n, req.version) && WellFormed(tx)
  {
    hide ReservedKey, Decode;
    var tx := Endorse(ns, req).value;
    assert tx[1..] == [];
    assert Writes(tx) == SectionWrites(tx[0]);
  }

  lemma TransferDeltas(ws: seq<Write>, src: Key, dst: Key, n: int64, version: Bytes)
    requires IsTransfer(ws, src, dst, n, version)
    ensures src != dst ==> DeltasOf(ws, src) == [Delta(OP_SUB, n)] && DeltasOf(ws, dst) == [Delta(OP_ADD, n)]
    ensures src == dst ==> DeltasOf(ws, src) == [Delta(OP_SUB, n), Delta(OP_ADD, n)]
    ensures ws[0] in ws && ws[1] in ws && forall w {:trigger w in ws} :: w in ws ==> w == ws[0] || w == ws[1]
  {
    hide ToDelta;
    assert ws[1..] == [ws[1]] && [ws[1]][1..] == [];
    assert DeltasOf([ws[1]], dst) == [Delta(OP_ADD, n)];
    assert src != dst ==> DeltasOf([ws[1]], src) == [];
  }

  lemma DownAndUp(n: int64)
    requires n >= 0
    ensures var ds := [Delta(OP_SUB, n), Delta(OP_ADD, n)]; Sum(ds) == 0 && Foldable(ds)
  {
    var down, up := Delta(OP_SUB, n), Delta(OP_ADD, n);
    SingleSum(down);
    assert [down, up][..1] == [down];
  }

  /** A transfer from a key to itself passes exactly if the value that is there already satisfies the invariant. */
  ghost predicate SelfAdmissible(cfg: Config, s: Store, k: Key, version: Bytes) {
    var look := SchemaOf(cfg, s, k);
    && cfg.enabled && look.Found? && InvariantOf(look.schema).Some?
    && look.schema.typeId == TYPE_ID && look.schema.version == version
    && AllowsOp(look.schema, OP_ADD) && AllowsOp(look.schema, OP_SUB)
    && Current(s, k).Some? && Holds(InvariantOf(look.schema).value, Current(s, k).value)
  }

  lemma SelfExactly(cfg: Config, s: Store, ws: seq<Write>, k: Key, n: int64, version: Bytes)
    requires IsTransfer(ws, k, k, n, version)
    ensures cfg.enabled && DeltaMatches(cfg, s, ws[0]) && DeltaMatches(cfg, s, ws[1]) && KeyAccepts(cfg, s, ws, k)
            <==> SelfAdmissible(cfg, s, k, version)
  {
    TransferDeltas(ws, k, k, n, version);
    DownAndUp(n);
    hide DeltasOf, ToDelta, Current, Sum, Foldable;
  }

  /** Exactly when a transfer is accepted. */
  lemma TransferExactly(cfg: Config, s: Store, ns: Bytes, req: Request)
    requires req.Transfer? && Endorse(ns, req).Some?
    ensures var src, dst := Key(ns, req.src), Key(ns, req.dst);
            Accepts(cfg, s, Endorse(ns, req).value) <==>
              if src == dst then SelfAdmissible(cfg, s, src, req.version)
              else Admissible(cfg, s, src, Delta(OP_SUB, req.n), req.version) && Admissible(cfg, s, dst, Delta(OP_ADD, req.n), req.version)
  {
    hide Endorse, WellFormed, DeltasOf, DeltaMatches, KeyAccepts, Admissible, SelfAdmissible, Writes, ToDelta;
    var src, dst := Key(ns, req.src), Key(ns, req.dst);
    var tx := Endorse(ns, req).value;
    var ws := Writes(tx);
    TransferWrites(ns, req);
    TransferDeltas(ws, src, dst, req.n, req.version);
    assert !Untyped(cfg, s, ws);
    assert TypedAccepts(cfg, s, tx) <==>
           && cfg.enabled && DeltaMatches(cfg, s, ws[0]) && KeyAccepts(cfg, s, ws, src)
           && DeltaMatches(cfg, s, ws[1]) && KeyAccepts(cfg, s, ws, dst);
    if src == dst {
      SelfExactly(cfg, s, ws, src, req.n, req.version);
    } else {
      OneKeyExactly(cfg, s, ws, ws[0], Delta(OP_SUB, req.n), req.version);
      OneKeyExactly(cfg, s, ws, ws[1], Delta(OP_ADD, req.n), req.version);
    }
  }

  /** What an accepted transfer leaves: n less at the source, n more at the destination, all other keys as they were. */
  lemma TransferEffect(cfg: Config, s: Store, ns: Bytes, req: Request)
    requires req.Transfer? && Endorse(ns, req).Some? && Accepts(cfg, s, Endorse(ns, req).value)
    ensures var src, dst := Key(ns, req.src), Key(ns, req.dst);
            var t := Step(cfg, s, Endorse(ns, req).value);
            && Current(s, src).Some? && Current(s, dst).Some?
            && (src != dst ==> Current(t, src) == Some(Current(s, src).value - req.n) && Current(t, dst) == Some(Current(s, dst).value + req.n))
            && (src == dst ==> Current(t, src) == Current(s, src))
            && forall k :: k != src && k != dst ==> Get(t, k) == Get(s, k)
  {
    hide Endorse, Accepts, WellFormed, DeltasOf, Writes, ToDelta, Current, Net, ApplyTx, HasDelta, Touched;
    var src, dst := Key(ns, req.src), Key(ns, req.dst);
    var tx := Endorse(ns, req).value;
    var ws := Writes(tx);
    TransferWrites(ns, req);
    TransferDeltas(ws, src, dst, req.n, req.version);
    TransferTouches(s, ws, src, dst, req.n, req.version);
    DeltaLeaves(cfg, s, tx, src);
    DeltaLeaves(cfg, s, tx, dst);
    EndorsedMovesTo(ns, req, src);
    EndorsedMovesTo(ns, req, dst);
  }

  lemma TransferTouches(s: Store, ws: seq<Write>, src: Key, dst: Key, n: int64, version: Bytes)
    requires IsTransfer(ws, src, dst, n, version)
    ensures HasDelta(ws, src) && HasDelta(ws, dst)
    ensures forall k :: k != src && k != dst ==> Get(ApplyTx(s, ws), k) == Get(s, k)
  {
    TransferDeltas(ws, src, dst, n, version);
    forall k | k != src && k != dst ensures Get(ApplyTx(s, ws), k) == Get(s, k) {
      assert k !in Touched(ws);
      Untouched(s, ws, k);
    }
  }
}
