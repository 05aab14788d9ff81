/**
 The meaning of typed-delta validation over one flat store: when a transaction is accepted, and what it then
 leaves in the store. Module Hooks proves that the code, which works on a batch of pending updates over a
 database, implements it.
 */
module Validation {
  import opened Prelude
  import opened Int64
  import opened TypedDelta
  import opened RwSet

  // ---------- schemas ----------

  /** The invariant's name in a schema record. */
  datatype InvariantName = NONNEG | RANGE | UnknownName(name: Bytes)

  /** `allowedOps` holds int32 values, as they come out of the JSON record. */
  datatype StoredSchema = StoredSchema(typeId: Bytes, allowedOps: seq<int>, invName: InvariantName, lo: int64, hi: int64, version: Bytes)

  /** None for an unknown invariant and for an empty RANGE. */
  function InvariantOf(s: StoredSchema): Option<Invariant> {
    match s.invName
    case NONNEG => Some(NonNeg)
    case RANGE => if s.lo > s.hi then None else Some(Range(s.lo, s.hi))
    case UnknownName(_) => None
  }

  /** The conversion `Op(a)` keeps the low byte of a. */
  predicate AllowsOp(s: StoredSchema, op: Op) {
    exists a :: a in s.allowedOps && a % 256 == op
  }

  /**
   What validation is parameterised by: JSON parsing of schema records, a partial function; the storage key of a
   data key's schema record (module SchemaKey defines the deployed one); the channel's typed-delta capability.
   */
  datatype Config = Config(parse: imap<Bytes, StoredSchema>, storageKey: imap<Bytes, Bytes>, enabled: bool)

  // ---------- stores ----------

  type Store = map<Key, Bytes>

  /** The bytes at k; the source treats an absent key and an empty value alike. */
  function Get(s: Store, k: Key): Bytes {
    if k in s then s[k] else []
  }

  ghost predicate Normal(s: Store) {
    forall k :: k in s ==> |s[k]| > 0
  }

  lemma StoreExtensional(s: Store, t: Store)
    requires Normal(s) && Normal(t)
    requires forall k :: Get(s, k) == Get(t, k)
    ensures s == t
  {
    assert forall k :: k in s <==> |Get(s, k)| > 0;
    assert forall k :: k in t <==> |Get(t, k)| > 0;
    assert forall k :: k in s ==> s[k] == Get(s, k) == Get(t, k) == t[k];
  }

  datatype Lookup = NoSchema | Found(schema: StoredSchema) | LookupErr

  function ParseSchema(cfg: Config, raw: Bytes): Lookup {
    if |raw| == 0 then NoSchema
    else if raw in cfg.parse then Found(cfg.parse[raw])
    else LookupErr
  }

  function SchemaRecord(cfg: Config, k: Key): Key {
    Key(k.ns, if k.key in cfg.storageKey then cfg.storageKey[k.key] else [])
  }

  function SchemaOf(cfg: Config, s: Store, k: Key): Lookup {
    if |k.ns| == 0 then NoSchema else ParseSchema(cfg, Get(s, SchemaRecord(cfg, k)))
  }

  /** The integer stored at k, an absent key counting as 0; None when the bytes are not canonical. */
  function DecodeCurrent(raw: Bytes): Option<int64> {
    if |raw| == 0 then Some(0) else Decode(raw)
  }

  function Current(s: Store, k: Key): Option<int64> {
    DecodeCurrent(Get(s, k))
  }

  // ---------- acceptance, in unbounded integers ----------

  /** No write mixes a delta with a value or a delete, and no key of a namespace has both kinds of write. */
  ghost predicate WellFormed(tx: TxRwSet) {
    forall i :: 0 <= i < |tx| ==> WellFormedSection(tx[i].writes)
  }

  ghost predicate WellFormedSection(kvs: seq<KVWrite>) {
    && (forall w {:trigger w in kvs} :: w in kvs && w.delta.Some? ==> |w.value| == 0 && !w.isDelete)
    && (forall w, v {:trigger w in kvs, v in kvs} :: w in kvs && v in kvs && w.delta.Some? && v.delta.None? ==> w.key != v.key)
  }

  /** The descriptor names the schema's type and version, decodes, and uses an allowed op. */
  predicate DeltaMatches(cfg: Config, s: Store, w: Write)
    requires IsDelta(w)
  {
    var d := w.kv.delta.value;
    var look := SchemaOf(cfg, s, w.key);
    && look.Found?
    && d.typeId == look.schema.typeId
    && d.schemaVersion == look.schema.version
    && ToDelta(d).Ok?
    && AllowsOp(look.schema, ToDelta(d).value.op)
  }

  /** The deltas can be added to what is stored at k: proper, every prefix sum and the new value in range. */
  predicate Sums(s: Store, k: Key, ds: seq<Delta>) {
    && Current(s, k).Some?
    && Foldable(ds)
    && InRange(Current(s, k).value + Sum(ds))
  }

  /** The deltas on k can be added, and the invariant holds of the result. */
  ghost predicate KeyAccepts(cfg: Config, s: Store, ws: seq<Write>, k: Key) {
    var look := SchemaOf(cfg, s, k);
    && look.Found? && InvariantOf(look.schema).Some?
    && Sums(s, k, DeltasOf(ws, k))
    && Holds(InvariantOf(look.schema).value, Current(s, k).value + Sum(DeltasOf(ws, k)))
  }

  /** A plain write to a typed key must leave a value, or by deleting a 0, that satisfies the invariant. */
  predicate PlainAccepts(cfg: Config, s: Store, w: Write) {
    match SchemaOf(cfg, s, w.key)
    case NoSchema => true
    case LookupErr => false
    case Found(schema) =>
      && InvariantOf(schema).Some?
      && if w.kv.isDelete then Holds(InvariantOf(schema).value, 0)
         else Decode(w.kv.value).Some? && Holds(InvariantOf(schema).value, Decode(w.kv.value).value)
  }

  ghost predicate TypedAccepts(cfg: Config, s: Store, tx: TxRwSet) {
    var ws := Writes(tx);
    && cfg.enabled
    && WellFormed(tx)
    && (forall w {:trigger w in ws} :: w in ws && IsDelta(w) ==> DeltaMatches(cfg, s, w) && KeyAccepts(cfg, s, ws, w.key))
    && (forall w {:trigger w in ws} :: w in ws && !IsDelta(w) ==> PlainAccepts(cfg, s, w))
  }

  ghost predicate Untyped(cfg: Config, s: Store, ws: seq<Write>) {
    forall w {:trigger w in ws} :: w in ws ==> !IsDelta(w) && SchemaOf(cfg, s, w.key).NoSchema?
  }

  /** The transaction ends up VALID. */
  ghost predicate Accepts(cfg: Config, s: Store, tx: TxRwSet) {
    Untyped(cfg, s, Writes(tx)) || TypedAccepts(cfg, s, tx)
  }

  /** Nothing the validator reads for tx fails to parse or to decode. */
  ghost predicate Clean(cfg: Config, s: Store, tx: TxRwSet) {
    forall w {:trigger w in Writes(tx)} :: w in Writes(tx) ==>
                  && !SchemaOf(cfg, s, w.key).LookupErr?
                  && (IsDelta(w) ==> Current(s, w.key).Some?)
  }

  // ---------- effect ----------

  /** The apply pass succeeds. */
  ghost predicate Materialisable(s: Store, ws: seq<Write>) {
    && Decodable(ws)
    && (forall w {:trigger w in ws} :: w in ws && IsDelta(w) ==> KeyMaterialises(s, ws, w.key))
  }

  ghost predicate KeyMaterialises(s: Store, ws: seq<Write>, k: Key) {
    Sums(s, k, DeltasOf(ws, k))
  }

  ghost function NewValue(s: Store, ws: seq<Write>, k: Key): Bytes {
    if HasDelta(ws, k) then
      (if KeyMaterialises(s, ws, k) then Encode(Current(s, k).value + Sum(DeltasOf(ws, k))) else Get(s, k))
    else
      match PlainEffect(ws, k)
      case None => Get(s, k)
      case Some(b) => b
  }

  ghost function ApplyTx(s: Store, ws: seq<Write>): (t: Store)
    ensures Normal(t)
    ensures forall k :: Get(t, k) == NewValue(s, ws, k)
  {
    var t := map k | k in s.Keys + Touched(ws) && |NewValue(s, ws, k)| > 0 :: NewValue(s, ws, k);
    assert forall k :: Get(t, k) == NewValue(s, ws, k) by {
      forall k ensures Get(t, k) == NewValue(s, ws, k) {
        if k !in s.Keys + Touched(ws) {
          Untouched(s, ws, k);
        }
      }
    }
    t
  }

  lemma Untouched(s: Store, ws: seq<Write>, k: Key)
    requires k !in Touched(ws)
    ensures NewValue(s, ws, k) == Get(s, k)
  {
    PlainEffectSource(ws, k);
  }

  /** What one transaction does to the store. */
  ghost function Step(cfg: Config, s: Store, tx: TxRwSet): Store {
    if Accepts(cfg, s, tx) then ApplyTx(s, Writes(tx)) else s
  }

  ghost function Run(cfg: Config, s: Store, txs: seq<TxRwSet>): Store
    decreases |txs|
  {
    if |txs| == 0 then s else Run(cfg, Step(cfg, s, txs[0]), txs[1..])
  }

  datatype Code = VALID | INVALID_OTHER_REASON | ABORT

  ghost function Verdict(cfg: Config, s: Store, tx: TxRwSet): Code {
    if Accepts(cfg, s, tx) then VALID else INVALID_OTHER_REASON
  }

  /** One verdict per transaction of a stream. */
  ghost function Verdicts(cfg: Config, s: Store, txs: seq<TxRwSet>): (codes: seq<Code>)
    ensures |codes| == |txs|
    decreases |txs|
  {
    if |txs| == 0 then [] else [Verdict(cfg, s, txs[0])] + Verdicts(cfg, Step(cfg, s, txs[0]), txs[1..])
  }

  ghost predicate AllClean(cfg: Config, s: Store, txs: seq<TxRwSet>)
    decreases |txs|
  {
    |txs| == 0 || (Clean(cfg, s, txs[0]) && AllClean(cfg, Step(cfg, s, txs[0]), txs[1..]))
  }

  /** A stream can be cut anywhere. */
  lemma {:induction false} RunConcat(cfg: Config, s: Store, a: seq<TxRwSet>, b: seq<TxRwSet>)
    ensures Run(cfg, s, a + b) == Run(cfg, Run(cfg, s, a), b)
    decreases |a|
  {
    hide Step;
    if |a| == 0 {
      assert a + b == b;
    } else {
      RunConcat(cfg, Step(cfg, s, a[0]), a[1..], b);
      assert (a + b)[0] == a[0] && (a + b)[1..] == a[1..] + b;
    }
  }

  lemma {:induction false} VerdictsConcat(cfg: Config, s: Store, a: seq<TxRwSet>, b: seq<TxRwSet>)
    ensures Verdicts(cfg, s, a + b) == Verdicts(cfg, s, a) + Verdicts(cfg, Run(cfg, s, a), b)
    decreases |a|
  {
    hide Step, Verdict;
    if |a| == 0 {
      assert a + b == b;
    } else {
      VerdictsConcat(cfg, Step(cfg, s, a[0]), a[1..], b);
      assert (a + b)[0] == a[0] && (a + b)[1..] == a[1..] + b;
    }
  }

  lemma {:induction false} AllCleanConcat(cfg: Config, s: Store, a: seq<TxRwSet>, b: seq<TxRwSet>)
    ensures AllClean(cfg, s, a + b) <==> AllClean(cfg, s, a) && AllClean(cfg, Run(cfg, s, a), b)
    decreases |a|
  {
    hide Step, Clean;
    if |a| == 0 {
      assert a + b == b;
    } else {
      AllCleanConcat(cfg, Step(cfg, s, a[0]), a[1..], b);
      assert (a + b)[0] == a[0] && (a + b)[1..] == a[1..] + b;
    }
  }

  /** The verdict at position i is taken on the store that the first i transactions leave. */
  lemma {:induction false} VerdictAt(cfg: Config, s: Store, txs: seq<TxRwSet>, i: nat)
    requires i < |txs|
    ensures Verdicts(cfg, s, txs)[i] == Verdict(cfg, Run(cfg, s, txs[..i]), txs[i])
    decreases |txs|
  {
    hide Step, Verdict;
    if i > 0 {
      VerdictAt(cfg, Step(cfg, s, txs[0]), txs[1..], i - 1);
      assert txs[..i][1..] == txs[1..][..i - 1];
    }
  }

  /** An accepted transaction can always be materialised: the apply pass cannot fail. */
  lemma AcceptedMaterialises(cfg: Config, s: Store, tx: TxRwSet)
    requires Accepts(cfg, s, tx)
    ensures Materialisable(s, Writes(tx))
  {
  }

  lemma {:induction false} RunNormal(cfg: Config, s: Store, txs: seq<TxRwSet>)
    requires Normal(s)
    ensures Normal(Run(cfg, s, txs))
    decreases |txs|
  {
    if |txs| > 0 {
      RunNormal(cfg, Step(cfg, s, txs[0]), txs[1..]);
    }
  }

  lemma AcceptedDelta(cfg: Config, s: Store, tx: TxRwSet, k: Key)
    requires Accepts(cfg, s, tx) && HasDelta(Writes(tx), k)
    ensures WellFormed(tx) && Decodable(Writes(tx)) && Sums(s, k, DeltasOf(Writes(tx), k))
  {
    var w :| w in Writes(tx) && Same(w.key, k) && IsDelta(w);
    assert !Untyped(cfg, s, Writes(tx));
    assert KeyAccepts(cfg, s, Writes(tx), k);
  }

  // ---------- acceptance over the fields of the schema record ----------

  /** The invariant that a record states, whatever it is called; an empty RANGE and an unknown name admit nothing. */
  lemma InvariantMeans(sc: StoredSchema, v: int)
    ensures InvariantOf(sc).Some? && Holds(InvariantOf(sc).value, v)
            <==> (sc.invName == NONNEG && v >= 0) || (sc.invName == RANGE && sc.lo <= v <= sc.hi)
  {
  }

  /** The key check: a schema, deltas that fold, and a result that is >= 0 under NONNEG and between lo and hi under RANGE. */
  lemma KeyAcceptsExactly(cfg: Config, s: Store, ws: seq<Write>, k: Key)
    ensures KeyAccepts(cfg, s, ws, k) <==>
              && SchemaOf(cfg, s, k).Found?
              && Current(s, k).Some? && Foldable(DeltasOf(ws, k))
              && var sc, next := SchemaOf(cfg, s, k).schema, Current(s, k).value + Sum(DeltasOf(ws, k));
                 InRange(next) && ((sc.invName == NONNEG && next >= 0) || (sc.invName == RANGE && sc.lo <= next <= sc.hi))
  {
    hide DeltasOf, Foldable, Sum, InvariantOf, Holds, Current;
    if SchemaOf(cfg, s, k).Found? && Current(s, k).Some? {
      InvariantMeans(SchemaOf(cfg, s, k).schema, Current(s, k).value + Sum(DeltasOf(ws, k)));
    }
  }

  /** A plain write under a schema: the written integer, or 0 for a delete, is what the record allows. */
  lemma PlainAcceptsExactly(cfg: Config, s: Store, w: Write)
    requires SchemaOf(cfg, s, w.key).Found?
    ensures var sc := SchemaOf(cfg, s, w.key).schema;
            var v := if w.kv.isDelete then Some(0) else Decode(w.kv.value);
            PlainAccepts(cfg, s, w) <==>
              v.Some? && ((sc.invName == NONNEG && v.value >= 0) || (sc.invName == RANGE && sc.lo <= v.value <= sc.hi))
  {
    hide Decode, InvariantOf, Holds;
    var sc := SchemaOf(cfg, s, w.key).schema;
    InvariantMeans(sc, 0);
    if Decode(w.kv.value).Some? {
      InvariantMeans(sc, Decode(w.kv.value).value);
    }
  }

  /** A descriptor under a schema: type and version as recorded, eight bytes, and ADD or SUB where the record lists 1 or 2. */
  lemma DeltaMatchesExactly(cfg: Config, s: Store, w: Write)
    requires IsDelta(w)
    ensures var d := w.kv.delta.value;
            DeltaMatches(cfg, s, w) <==>
              && SchemaOf(cfg, s, w.key).Found?
              && d.typeId == SchemaOf(cfg, s, w.key).schema.typeId && d.schemaVersion == SchemaOf(cfg, s, w.key).schema.version
              && |d.arg| == INT64_WIDTH
              && exists a :: a in SchemaOf(cfg, s, w.key).schema.allowedOps && ((d.op == ADD && a % 256 == 1) || (d.op == SUB && a % 256 == 2))
  {
    hide Decode, SchemaOf;
  }

  /** Malformed, position by position: a delta with a value or a delete flag, or one key of a namespace with both kinds of write. */
  lemma WellFormedMeans(tx: TxRwSet)
    ensures WellFormed(tx) <==>
              && (forall i, a :: 0 <= i < |tx| && 0 <= a < |tx[i].writes| && tx[i].writes[a].delta.Some? ==>
                    |tx[i].writes[a].value| == 0 && !tx[i].writes[a].isDelete)
              && (forall i, a, b :: 0 <= i < |tx| && 0 <= a < |tx[i].writes| && 0 <= b < |tx[i].writes|
                                    && tx[i].writes[a].delta.Some? && tx[i].writes[b].delta.None? ==>
                    tx[i].writes[a].key != tx[i].writes[b].key)
  {
    forall i | 0 <= i < |tx|
      ensures WellFormedSection(tx[i].writes) <==>
                && (forall a :: 0 <= a < |tx[i].writes| && tx[i].writes[a].delta.Some? ==> |tx[i].writes[a].value| == 0 && !tx[i].writes[a].isDelete)
                && (forall a, b :: 0 <= a < |tx[i].writes| && 0 <= b < |tx[i].writes| && tx[i].writes[a].delta.Some? && tx[i].writes[b].delta.None? ==>
                      tx[i].writes[a].key != tx[i].writes[b].key)
    {
      SectionMeans(tx[i].writes);
    }
  }

  lemma SectionMeans(kvs: seq<KVWrite>)
    ensures WellFormedSection(kvs) <==>
              && (forall a :: 0 <= a < |kvs| && kvs[a].delta.Some? ==> |kvs[a].value| == 0 && !kvs[a].isDelete)
              && (forall a, b :: 0 <= a < |kvs| && 0 <= b < |kvs| && kvs[a].delta.Some? && kvs[b].delta.None? ==> kvs[a].key != kvs[b].key)
  {
    assert forall a :: 0 <= a < |kvs| ==> kvs[a] in kvs;
  }

  /** Keys outside every namespace are never typed. */
  lemma NoNamespaceNoSchema(cfg: Config, s: Store, k: Key)
    requires |k.ns| == 0
    ensures SchemaOf(cfg, s, k).NoSchema?
  {
  }

  /** A typed key has the schema that its record parses to; an empty or absent record is no schema, an unparsable one an error. */
  lemma SchemaMeans(cfg: Config, s: Store, k: Key)
    requires |k.ns| > 0 && k.key in cfg.storageKey
    ensures var raw := Get(s, Key(k.ns, cfg.storageKey[k.key]));
            && (SchemaOf(cfg, s, k).NoSchema? <==> |raw| == 0)
            && (SchemaOf(cfg, s, k).Found? <==> |raw| > 0 && raw in cfg.parse)
            && (SchemaOf(cfg, s, k).Found? ==> SchemaOf(cfg, s, k).schema == cfg.parse[raw])
  {
  }

  /** What a record allows as a value. */
  predicate ValueAllowed(sc: StoredSchema, v: int) {
    (sc.invName == NONNEG && v >= 0) || (sc.invName == RANGE && sc.lo <= v <= sc.hi)
  }

  predicate DeltaAllowed(sc: StoredSchema, d: Descriptor) {
    && d.typeId == sc.typeId && d.schemaVersion == sc.version && |d.arg| == INT64_WIDTH
    && exists a :: a in sc.allowedOps && ((d.op == ADD && a % 256 == 1) || (d.op == SUB && a % 256 == 2))
  }

  predicate SumAllowed(sc: StoredSchema, s: Store, ws: seq<Write>, k: Key) {
    && Current(s, k).Some? && Foldable(DeltasOf(ws, k))
    && InRange(Current(s, k).value + Sum(DeltasOf(ws, k))) && ValueAllowed(sc, Current(s, k).value + Sum(DeltasOf(ws, k)))
  }

  predicate PlainAllowed(sc: StoredSchema, w: KVWrite) {
    if w.isDelete then ValueAllowed(sc, 0) else Decode(w.value).Some? && ValueAllowed(sc, Decode(w.value).value)
  }

  /** One write of a VALID transaction, over the fields of its key's schema record. */
  predicate WriteFits(cfg: Config, s: Store, ws: seq<Write>, w: Write) {
    match SchemaOf(cfg, s, w.key)
    case LookupErr => false
    case NoSchema => !IsDelta(w)
    case Found(sc) =>
      if IsDelta(w) then DeltaAllowed(sc, w.kv.delta.value) && SumAllowed(sc, s, ws, w.key) else PlainAllowed(sc, w.kv)
  }

  lemma WriteFitsExactly(cfg: Config, s: Store, ws: seq<Write>, w: Write)
    ensures WriteFits(cfg, s, ws, w) <==>
              if IsDelta(w) then DeltaMatches(cfg, s, w) && KeyAccepts(cfg, s, ws, w.key) else PlainAccepts(cfg, s, w)
  {
    hide Decode, DeltasOf, Foldable, Sum, Current, InvariantOf, Holds;
    if IsDelta(w) {
      DeltaMatchesExactly(cfg, s, w);
      KeyAcceptsExactly(cfg, s, ws, w.key);
    } else if SchemaOf(cfg, s, w.key).Found? {
      PlainAcceptsExactly(cfg, s, w);
    }
  }

  /**
   A validated transaction is VALID exactly when it is well formed and, over the fields of the schema records, every
   delta names its record's type and version and uses an allowed op, every key's deltas fold and leave what the
   record allows, and so does every plain write to a typed key.
   */
  lemma TypedAcceptsExactly(cfg: Config, s: Store, tx: TxRwSet)
    ensures TypedAccepts(cfg, s, tx) <==> cfg.enabled && WellFormed(tx) && AllWritesFit(cfg, s, Writes(tx))
  {
    hide WellFormed, AllWritesFit;
    AllWritesFitMeans(cfg, s, Writes(tx));
  }

  ghost predicate AllWritesFit(cfg: Config, s: Store, ws: seq<Write>) {
    forall w {:trigger w in ws} :: w in ws ==> WriteFits(cfg, s, ws, w)
  }

  lemma AllWritesFitMeans(cfg: Config, s: Store, ws: seq<Write>)
    ensures AllWritesFit(cfg, s, ws) <==>
              && (forall w {:trigger w in ws} :: w in ws && IsDelta(w) ==> DeltaMatches(cfg, s, w) && KeyAccepts(cfg, s, ws, w.key))
              && (forall w {:trigger w in ws} :: w in ws && !IsDelta(w) ==> PlainAccepts(cfg, s, w))
  {
    hide DeltaMatches, KeyAccepts, PlainAccepts, WriteFits;
    forall w {:trigger w in ws} | w in ws
      ensures WriteFits(cfg, s, ws, w) <==>
                if IsDelta(w) then DeltaMatches(cfg, s, w) && KeyAccepts(cfg, s, ws, w.key) else PlainAccepts(cfg, s, w)
    {
      WriteFitsExactly(cfg, s, ws, w);
    }
  }

  /** Under a record with an unknown invariant or an empty RANGE no write is VALID. */
  lemma UnusableSchemaRejects(cfg: Config, s: Store, tx: TxRwSet, k: Key)
    requires SchemaOf(cfg, s, k).Found? && k in Touched(Writes(tx))
    requires var sc := SchemaOf(cfg, s, k).schema; sc.invName.UnknownName? || (sc.invName == RANGE && sc.lo > sc.hi)
    ensures !Accepts(cfg, s, tx)
  {
    hide SchemaOf, DeltasOf, Sum, Foldable, DeltaMatches, WellFormed;
    var ws := Writes(tx);
    var w :| w in ws && w.key == k;
    assert !Untyped(cfg, s, ws);
    assert !KeyAccepts(cfg, s, ws, k) && (!IsDelta(w) ==> !PlainAccepts(cfg, s, w));
  }
}
