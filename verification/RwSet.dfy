/** Decoded read-write sets: what a transaction asks the ledger to write. */
module RwSet {
  import opened Prelude
  import opened Int64
  import opened TypedDelta

  /** The descriptor's op enumeration; SETMAX and any other code are `OtherOp`. */
  datatype PbOp = ADD | SUB | OtherOp(code: int)

  datatype Descriptor = Descriptor(typeId: Bytes, op: PbOp, arg: Bytes, schemaVersion: Bytes)

  datatype KVWrite = KVWrite(key: Bytes, value: Bytes, isDelete: bool, delta: Option<Descriptor>)

  datatype NsRwSet = NsRwSet(ns: Bytes, writes: seq<KVWrite>)

  type TxRwSet = seq<NsRwSet>

  /** A key of the public state; the source's `compositeKey` with an empty collection. */
  datatype Key = Key(ns: Bytes, key: Bytes)

  /** One write together with the state key it addresses. */
  datatype Write = Write(key: Key, kv: KVWrite)

  predicate IsDelta(w: Write) {
    w.kv.delta.Some?
  }

  /** `rwsetutil.IsKVWriteDelete`: an empty value deletes as well. */
  predicate IsKVWriteDelete(kv: KVWrite) {
    kv.isDelete || |kv.value| == 0
  }

  /** `toDelta`, the commit-time reading of a descriptor. */
  function ToDelta(d: Descriptor): Result<Delta, DeltaError> {
    if d.op.OtherOp? then Err(UnknownOp)
    else
      match Decode(d.arg)
      case None => Err(BadCanonical)
      case Some(arg) => Ok(Delta(if d.op.ADD? then OP_ADD else OP_SUB, arg))
  }

  function SectionWrites(sec: NsRwSet): (ws: seq<Write>)
    ensures |ws| == |sec.writes|
    ensures forall j :: 0 <= j < |ws| ==> ws[j] == Write(Key(sec.ns, sec.writes[j].key), sec.writes[j])
  {
    seq(|sec.writes|, j requires 0 <= j < |sec.writes| => Write(Key(sec.ns, sec.writes[j].key), sec.writes[j]))
  }

  /** All writes of a transaction, in the order in which the source's nested loops meet them. */
  function Writes(tx: TxRwSet): seq<Write> {
    if |tx| == 0 then [] else SectionWrites(tx[0]) + Writes(tx[1..])
  }

  /** The writes that the nested loops have still to meet at write j of section i. */
  ghost function Rest(tx: TxRwSet, i: nat, j: nat): seq<Write>
    requires i < |tx| && j <= |tx[i].writes|
  {
    SectionWrites(tx[i])[j..] + Writes(tx[i + 1..])
  }

  lemma RestStep(tx: TxRwSet, i: nat, j: nat)
    requires i < |tx| && j < |tx[i].writes|
    ensures Rest(tx, i, j) == [Write(Key(tx[i].ns, tx[i].writes[j].key), tx[i].writes[j])] + Rest(tx, i, j + 1)
  {
  }

  lemma RestSection(tx: TxRwSet, i: nat)
    requires i < |tx|
    ensures Writes(tx[i..]) == Rest(tx, i, 0)
    ensures Writes(tx[i + 1..]) == Rest(tx, i, |tx[i].writes|)
  {
    assert tx[i..][1..] == tx[i + 1..];
  }

  /** A write of the transaction is a write of one of its sections, and conversely. */
  lemma {:induction false} WriteInSection(tx: TxRwSet, w: Write)
    ensures w in Writes(tx) <==> exists i :: 0 <= i < |tx| && w.key == Key(tx[i].ns, w.kv.key) && w.kv in tx[i].writes
  {
    if |tx| > 0 {
      WriteInSection(tx[1..], w);
      InSection(tx[0], w);
      assert forall i :: 0 < i < |tx| ==> tx[i] == tx[1..][i - 1];
    }
  }

  lemma InSection(sec: NsRwSet, w: Write)
    ensures w in SectionWrites(sec) <==> w.key == Key(sec.ns, w.kv.key) && w.kv in sec.writes
  {
    if w.key == Key(sec.ns, w.kv.key) && w.kv in sec.writes {
      var j :| 0 <= j < |sec.writes| && sec.writes[j] == w.kv;
      assert SectionWrites(sec)[j] == w;
    }
  }

  lemma HeadOrTail(ws: seq<Write>)
    requires |ws| > 0
    ensures ws[0] in ws
    ensures forall w {:trigger w in ws} {:trigger w in ws[1..]} :: w in ws <==> w == ws[0] || w in ws[1..]
  {
  }

  // ---------- per-key projections of a list of writes ----------

  predicate HasDelta(ws: seq<Write>, k: Key) {
    exists w {:trigger w in ws} :: w in ws && Same(w.key, k) && IsDelta(w)
  }

  function DeltaKeys(ws: seq<Write>): set<Key> {
    set w {:trigger w in ws} | w in ws && IsDelta(w) :: w.key
  }

  function Touched(ws: seq<Write>): set<Key> {
    set w {:trigger w in ws} | w in ws :: w.key
  }

  /** The decodable deltas addressed to k, in order. */
  function DeltasOf(ws: seq<Write>, k: Key): seq<Delta> {
    if |ws| == 0 then []
    else
      var rest := DeltasOf(ws[1..], k);
      if Same(ws[0].key, k) && IsDelta(ws[0]) && ToDelta(ws[0].kv.delta.value).Ok?
      then [ToDelta(ws[0].kv.delta.value).value] + rest
      else rest
  }

  /** What the last plain write to k leaves there: None without one, [] for a delete. */
  function PlainEffect(ws: seq<Write>, k: Key): Option<Bytes> {
    if |ws| == 0 then None
    else
      var rest := PlainEffect(ws[1..], k);
      if rest.None? && Same(ws[0].key, k) && !IsDelta(ws[0]) then Some(WrittenValue(ws[0].kv)) else rest
  }

  function WrittenValue(kv: KVWrite): Bytes {
    if IsKVWriteDelete(kv) then [] else kv.value
  }

  lemma {:induction false} PlainEffectSource(ws: seq<Write>, k: Key)
    ensures PlainEffect(ws, k).Some? <==> exists w {:trigger w in ws} :: w in ws && Same(w.key, k) && !IsDelta(w)
    ensures PlainEffect(ws, k).Some? ==>
              exists w {:trigger w in ws} :: w in ws && Same(w.key, k) && !IsDelta(w) && PlainEffect(ws, k).value == WrittenValue(w.kv)
  {
    if |ws| > 0 {
      PlainEffectSource(ws[1..], k);
      HeadOrTail(ws);
    }
  }

  ghost predicate Decodable(ws: seq<Write>) {
    forall w {:trigger w in ws} :: w in ws && IsDelta(w) ==> ToDelta(w.kv.delta.value).Ok?
  }

  lemma {:induction false} DeltasOfSource(ws: seq<Write>, k: Key)
    ensures !HasDelta(ws, k) ==> |DeltasOf(ws, k)| == 0
    ensures HasDelta(ws, k) && Decodable(ws) ==> |DeltasOf(ws, k)| > 0
  {
    if |ws| > 0 {
      DeltasOfSource(ws[1..], k);
      HeadOrTail(ws);
    }
  }

  /**
   What the rwset builder and the protobuf maps guarantee of a transaction, apart from what the ledger checks:
   each namespace appears once, and a key has at most one plain write.
   */
  ghost predicate Regular(tx: TxRwSet) {
    && NamespacesOnce(tx)
    && (forall i :: 0 <= i < |tx| ==> RegularSection(tx[i].writes))
  }

  ghost predicate NamespacesOnce(tx: TxRwSet) {
    forall i, j :: 0 <= i < j < |tx| ==> tx[i].ns != tx[j].ns
  }

  ghost predicate RegularSection(kvs: seq<KVWrite>) {
    forall a, b :: 0 <= a < b < |kvs| && kvs[a].delta.None? && kvs[b].delta.None? ==> kvs[a].key != kvs[b].key
  }
}
