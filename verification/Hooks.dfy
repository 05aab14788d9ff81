/**
 The commit-time code of fabric-core/typeddelta_hooks.go. It reads through a batch of pending updates into a
 database; every method is proved against the flat store that the two denote together.
 */
module Hooks {
  import opened Prelude
  import opened Int64
  import opened TypedDelta
  import opened RwSet
  import opened Validation

  // ---------- pending updates over a database ----------

  /** The batch's value if it has one (empty for a delete inside the block), the database's otherwise. */
  function Read(updates: Store, db: Store, k: Key): Bytes {
    if k in updates then updates[k] else Get(db, k)
  }

  /** The store that committing `updates` to `db` would leave. */
  function Flat(updates: Store, db: Store): (s: Store)
    ensures Normal(s)
    ensures forall k :: Get(s, k) == Read(updates, db, k)
  {
    map k | k in updates.Keys + db.Keys && |Read(updates, db, k)| > 0 :: Read(updates, db, k)
  }

  function StateSchemaLookup(cfg: Config, updates: Store, db: Store, ns: Bytes, key: Bytes): (r: Lookup)
    ensures r == SchemaOf(cfg, Flat(updates, db), Key(ns, key))
  {
    if |ns| == 0 then NoSchema
    else ParseSchema(cfg, Read(updates, db, SchemaRecord(cfg, Key(ns, key))))
  }

  function CurrentInt64(updates: Store, db: Store, k: Key): (r: Option<int64>)
    ensures r == Current(Flat(updates, db), k)
  {
    var raw := Read(updates, db, k);
    if |raw| == 0 then Some(0) else Decode(raw)
  }

  // ---------- verdicts ----------

  /** The code ABORT stands for -1 with an error, which fails the whole block. */
  datatype Outcome = Pass | Stop(code: Code)

  ghost function RouteOutcome(cfg: Config, s: Store, w: Write): Outcome {
    if IsDelta(w) then Stop(VALID)
    else
      match SchemaOf(cfg, s, w.key)
      case LookupErr => Stop(ABORT)
      case Found(_) => Stop(VALID)
      case NoSchema => Pass
  }

  ghost function DeltaOutcome(cfg: Config, s: Store, w: Write): Outcome {
    if !IsDelta(w) then Pass
    else if SchemaOf(cfg, s, w.key).LookupErr? then Stop(ABORT)
    else if DeltaMatches(cfg, s, w) then Pass
    else Stop(INVALID_OTHER_REASON)
  }

  ghost function PlainOutcome(cfg: Config, s: Store, w: Write): Outcome {
    if IsDelta(w) then Pass
    else if SchemaOf(cfg, s, w.key).LookupErr? then Stop(ABORT)
    else if PlainAccepts(cfg, s, w) then Pass
    else Stop(INVALID_OTHER_REASON)
  }

  ghost function KeyOutcome(cfg: Config, s: Store, k: Key, ds: seq<Delta>): Outcome {
    match Current(s, k)
    case None => Stop(ABORT)
    case Some(cur) =>
      match ApplyResult(cur, ds)
      case Err(_) => Stop(INVALID_OTHER_REASON)
      case Ok(next) =>
        match SchemaOf(cfg, s, k)
        case Found(schema) =>
          if InvariantOf(schema).Some? && Holds(InvariantOf(schema).value, next) then Pass
          else Stop(INVALID_OTHER_REASON)
        case _ => Stop(INVALID_OTHER_REASON)
  }

  /** The first outcome that stops a scan. */
  ghost function First(os: seq<Outcome>): Outcome {
    if |os| == 0 then Pass else if os[0].Stop? then os[0] else First(os[1..])
  }

  lemma {:induction false} FirstMore(os: seq<Outcome>, o: Outcome, after: seq<Outcome>)
    requires First(os).Pass?
    ensures First(os + [o]) == o
    ensures o.Stop? ==> First(os + [o] + after) == o
  {
    if |os| == 0 {
      assert os + [o] == [o] && [o][1..] == [];
    } else {
      FirstMore(os[1..], o, after);
      assert (os + [o])[1..] == os[1..] + [o];
      assert (os + [o] + after)[1..] == os[1..] + [o] + after;
    }
  }

  lemma {:induction false} FirstMeans(os: seq<Outcome>)
    ensures First(os).Pass? <==> forall o :: o in os ==> o.Pass?
    ensures First(os).Stop? ==> First(os) in os
  {
    if |os| > 0 {
      FirstMeans(os[1..]);
      assert forall o :: o in os <==> o == os[0] || o in os[1..];
    }
  }

  lemma {:induction false} FirstExactly(os: seq<Outcome>, c: Code)
    ensures First(os) == Stop(c) <==> exists i :: 0 <= i < |os| && os[i] == Stop(c) && forall j :: 0 <= j < i ==> os[j].Pass?
  {
    if |os| > 0 {
      FirstExactly(os[1..], c);
      if os[0].Pass? {
        if i :| 0 <= i < |os| && os[i] == Stop(c) && forall j :: 0 <= j < i ==> os[j].Pass? {
          assert os[1..][i - 1] == Stop(c);
        }
        if i :| 0 <= i < |os[1..]| && os[1..][i] == Stop(c) && forall j :: 0 <= j < i ==> os[1..][j].Pass? {
          assert os[i + 1] == Stop(c);
          assert forall j :: 0 < j < i + 1 ==> os[j] == os[1..][j - 1];
        }
      } else {
        assert First(os) == os[0];
      }
    }
  }

  /** The three scans over a transaction's writes. */
  datatype Check = Routing | DeltaCheck | PlainCheck

  ghost function OutcomeOf(check: Check, cfg: Config, s: Store, w: Write): Outcome {
    match check
    case Routing => RouteOutcome(cfg, s, w)
    case DeltaCheck => DeltaOutcome(cfg, s, w)
    case PlainCheck => PlainOutcome(cfg, s, w)
  }

  ghost function Outcomes(check: Check, cfg: Config, s: Store, ws: seq<Write>): (os: seq<Outcome>)
    ensures |os| == |ws|
    ensures forall i :: 0 <= i < |ws| ==> os[i] == OutcomeOf(check, cfg, s, ws[i])
  {
    seq(|ws|, i requires 0 <= i < |ws| => OutcomeOf(check, cfg, s, ws[i]))
  }

  /** The first write that stops the scan decides. */
  ghost function Scan(check: Check, cfg: Config, s: Store, ws: seq<Write>): Outcome {
    First(Outcomes(check, cfg, s, ws))
  }

  lemma ScanStep(check: Check, cfg: Config, s: Store, ws: seq<Write>)
    requires |ws| > 0
    ensures Scan(check, cfg, s, ws) ==
            if OutcomeOf(check, cfg, s, ws[0]).Stop? then OutcomeOf(check, cfg, s, ws[0]) else Scan(check, cfg, s, ws[1..])
  {
    hide OutcomeOf;
    assert Outcomes(check, cfg, s, ws)[1..] == Outcomes(check, cfg, s, ws[1..]);
  }

  lemma ScanMeans(check: Check, cfg: Config, s: Store, ws: seq<Write>)
    ensures Scan(check, cfg, s, ws).Pass? <==> forall w {:trigger w in ws} :: w in ws ==> OutcomeOf(check, cfg, s, w).Pass?
    ensures Scan(check, cfg, s, ws).Stop? ==>
              exists w {:trigger w in ws} :: w in ws && OutcomeOf(check, cfg, s, w) == Scan(check, cfg, s, ws)
  {
    hide OutcomeOf;
    var os := Outcomes(check, cfg, s, ws);
    FirstMeans(os);
    forall w {:trigger w in ws} | w in ws ensures OutcomeOf(check, cfg, s, w) in os {
      var i :| 0 <= i < |ws| && ws[i] == w;
      assert os[i] in os;
    }
    forall x | x in os ensures exists w {:trigger w in ws} :: w in ws && OutcomeOf(check, cfg, s, w) == x {
      var i :| 0 <= i < |os| && os[i] == x;
      assert ws[i] in ws;
    }
  }

  ghost function KeyOutcomes(cfg: Config, s: Store, ws: seq<Write>, order: seq<Key>): (os: seq<Outcome>)
    ensures |os| == |order|
    ensures forall i :: 0 <= i < |order| ==> os[i] == KeyOutcome(cfg, s, order[i], DeltasOf(ws, order[i]))
  {
    seq(|order|, i requires 0 <= i < |order| => KeyOutcome(cfg, s, order[i], DeltasOf(ws, order[i])))
  }

  /** The loop over the folded map, in the given iteration order. */
  ghost function ScanKeys(cfg: Config, s: Store, ws: seq<Write>, order: seq<Key>): Outcome {
    First(KeyOutcomes(cfg, s, ws, order))
  }

  /** The verdict of `validateTypedDeltaTx` when Go iterates over the folded map in the given order. */
  ghost function CodeInOrder(cfg: Config, s: Store, tx: TxRwSet, order: seq<Key>): Code {
    if !WellFormed(tx) || !cfg.enabled then INVALID_OTHER_REASON
    else
      match Scan(DeltaCheck, cfg, s, Writes(tx))
      case Stop(c) => c
      case Pass =>
        match ScanKeys(cfg, s, Writes(tx), order)
        case Stop(c) => c
        case Pass =>
          match Scan(PlainCheck, cfg, s, Writes(tx))
          case Stop(c) => c
          case Pass => VALID
  }

  // ---------- the scans ----------

  method MalformedTypedWrites(tx: TxRwSet) returns (bad: bool)
    ensures bad <==> !WellFormed(tx)
  {
    for i := 0 to |tx|
      invariant forall n :: 0 <= n < i ==> WellFormedSection(tx[n].writes)
    {
      var kvs := tx[i].writes;
      var hasDelta: set<Bytes>, hasNonDelta: set<Bytes> := {}, {};
      for j := 0 to |kvs|
        invariant forall n :: 0 <= n < j && kvs[n].delta.Some? ==> |kvs[n].value| == 0 && !kvs[n].isDelete
        invariant forall key :: key in hasDelta <==> exists n :: 0 <= n < j && kvs[n].delta.Some? && kvs[n].key == key
        invariant forall key :: key in hasNonDelta <==> exists n :: 0 <= n < j && kvs[n].delta.None? && kvs[n].key == key
      {
        var w := kvs[j];
        if w.delta.Some? {
          if |w.value| != 0 || w.isDelete {
            assert w in kvs && !WellFormedSection(kvs);
            return true;
          }
          hasDelta := hasDelta + {w.key};
        } else {
          hasNonDelta := hasNonDelta + {w.key};
        }
      }
      var remaining := hasDelta;
      while remaining != {}
        invariant remaining <= hasDelta
        invariant forall key :: key in hasDelta - remaining ==> key !in hasNonDelta
        decreases |remaining|
      {
        var key :| key in remaining;
        if key in hasNonDelta {
          var a :| 0 <= a < |kvs| && kvs[a].delta.Some? && kvs[a].key == key;
          var b :| 0 <= b < |kvs| && kvs[b].delta.None? && kvs[b].key == key;
          assert kvs[a] in kvs && kvs[b] in kvs;
          return true;
        }
        remaining := remaining - {key};
      }
      assert WellFormedSection(kvs) by {
        forall w, v | w in kvs && v in kvs && w.delta.Some? && v.delta.None?
          ensures w.key != v.key
        {
          assert w.key in hasDelta && v.key in hasNonDelta;
        }
      }
    }
    bad := false;
  }

  /** Err is a failed lookup, Ok(true) sends the transaction to `validateTypedDeltaTx`. */
  method TxTouchesTypedState(cfg: Config, updates: Store, db: Store, tx: TxRwSet) returns (r: Result<bool, Code>)
    ensures r == match Scan(Routing, cfg, Flat(updates, db), Writes(tx))
                 case Pass => Ok(false)
                 case Stop(c) => if c == ABORT then Err(ABORT) else Ok(true)
  {
    ghost var s := Flat(updates, db);
    assert tx[0..] == tx;
    for i := 0 to |tx|
      invariant Scan(Routing, cfg, s, Writes(tx[i..])) == Scan(Routing, cfg, s, Writes(tx))
    {
      RestSection(tx, i);
      for j := 0 to |tx[i].writes|
        invariant Scan(Routing, cfg, s, Rest(tx, i, j)) == Scan(Routing, cfg, s, Writes(tx))
      {
        RestStep(tx, i, j);
        assert Rest(tx, i, j)[1..] == Rest(tx, i, j + 1);
        ScanStep(Routing, cfg, s, Rest(tx, i, j));
        var w := tx[i].writes[j];
        if w.delta.Some? {
          return Ok(true);
        }
        var look := StateSchemaLookup(cfg, updates, db, tx[i].ns, w.key);
        if look.LookupErr? {
          return Err(ABORT);
        }
        if look.Found? {
          return Ok(true);
        }
      }
    }
    r := Ok(false);
  }

  /** One write of `plainTypedWritesValid`. */
  function CheckPlainWrite(cfg: Config, updates: Store, db: Store, ns: Bytes, w: KVWrite): (r: Outcome)
    requires w.delta.None?
    ensures r == PlainOutcome(cfg, Flat(updates, db), Write(Key(ns, w.key), w))
  {
    match StateSchemaLookup(cfg, updates, db, ns, w.key)
    case LookupErr => Stop(ABORT)
    case NoSchema => Pass
    case Found(sc) =>
      match InvariantOf(sc)
      case None => Stop(INVALID_OTHER_REASON)
      case Some(inv) =>
        if w.isDelete then (if Holds(inv, 0) then Pass else Stop(INVALID_OTHER_REASON))
        else
          match Decode(w.value)
          case None => Stop(INVALID_OTHER_REASON)
          case Some(val) => if Holds(inv, val) then Pass else Stop(INVALID_OTHER_REASON)
  }

  method PlainTypedWritesValid(cfg: Config, updates: Store, db: Store, tx: TxRwSet) returns (r: Outcome)
    ensures r == Scan(PlainCheck, cfg, Flat(updates, db), Writes(tx))
  {
    ghost var s := Flat(updates, db);
    assert tx[0..] == tx;
    for i := 0 to |tx|
      invariant Scan(PlainCheck, cfg, s, Writes(tx[i..])) == Scan(PlainCheck, cfg, s, Writes(tx))
    {
      RestSection(tx, i);
      for j := 0 to |tx[i].writes|
        invariant Scan(PlainCheck, cfg, s, Rest(tx, i, j)) == Scan(PlainCheck, cfg, s, Writes(tx))
      {
        RestStep(tx, i, j);
        assert Rest(tx, i, j)[1..] == Rest(tx, i, j + 1);
        ScanStep(PlainCheck, cfg, s, Rest(tx, i, j));
        var w := tx[i].writes[j];
        if w.delta.Some? {
          continue;
        }
        r := CheckPlainWrite(cfg, updates, db, tx[i].ns, w);
        if r.Stop? {
          return;
        }
      }
    }
    r := Pass;
  }

  // ---------- folding ----------

  type Folded = map<Key, seq<Delta>>

  /** `folded[k] = append(folded[k], d)` */
  function Append(folded: Folded, k: Key, d: Delta): Folded {
    folded[k := (if k in folded then folded[k] else []) + [d]]
  }

  /** What folding the writes ws adds to the map; None when a descriptor does not decode. */
  ghost function FoldFrom(folded: Folded, ws: seq<Write>): Option<Folded>
    decreases |ws|
  {
    if |ws| == 0 then Some(folded)
    else if !IsDelta(ws[0]) then FoldFrom(folded, ws[1..])
    else if ToDelta(ws[0].kv.delta.value).Err? then None
    else FoldFrom(Append(folded, ws[0].key, ToDelta(ws[0].kv.delta.value).value), ws[1..])
  }

  lemma {:induction false} FoldFromDecodes(folded: Folded, ws: seq<Write>)
    ensures FoldFrom(folded, ws).Some? <==> Decodable(ws)
    decreases |ws|
  {
    if |ws| > 0 {
      HeadOrTail(ws);
      if !IsDelta(ws[0]) {
        FoldFromDecodes(folded, ws[1..]);
      } else if ToDelta(ws[0].kv.delta.value).Ok? {
        FoldFromDecodes(Append(folded, ws[0].key, ToDelta(ws[0].kv.delta.value).value), ws[1..]);
      }
    }
  }

  lemma {:induction false} FoldFromAt(folded: Folded, ws: seq<Write>, k: Key)
    requires FoldFrom(folded, ws).Some?
    ensures k in FoldFrom(folded, ws).value <==> k in folded || HasDelta(ws, k)
    ensures k in FoldFrom(folded, ws).value ==>
              FoldFrom(folded, ws).value[k] == (if k in folded then folded[k] else []) + DeltasOf(ws, k)
    decreases |ws|
  {
    if |ws| > 0 {
      HeadOrTail(ws);
      if !IsDelta(ws[0]) {
        FoldFromAt(folded, ws[1..], k);
      } else {
        FoldFromAt(Append(folded, ws[0].key, ToDelta(ws[0].kv.delta.value).value), ws[1..], k);
      }
    }
  }

  /** The map groups the deltas of the writes by key. */
  ghost predicate Groups(folded: Folded, ws: seq<Write>) {
    && folded.Keys == DeltaKeys(ws)
    && forall k :: k in folded ==> folded[k] == DeltasOf(ws, k) && |folded[k]| > 0
  }

  lemma FoldFromGroups(ws: seq<Write>)
    requires Decodable(ws)
    ensures FoldFrom(map[], ws).Some? && Groups(FoldFrom(map[], ws).value, ws)
  {
    FoldFromDecodes(map[], ws);
    var folded := FoldFrom(map[], ws).value;
    forall k
      ensures k in folded <==> k in DeltaKeys(ws)
      ensures k in folded ==> folded[k] == DeltasOf(ws, k) && |folded[k]| > 0
    {
      FoldFromAt(map[], ws, k);
      DeltasOfSource(ws, k);
      assert k in DeltaKeys(ws) <==> HasDelta(ws, k);
    }
  }

  method FoldPublicDeltas(tx: TxRwSet) returns (out: Option<Folded>)
    ensures out.Some? <==> Decodable(Writes(tx))
    ensures out.Some? ==> Groups(out.value, Writes(tx))
  {
    var folded: Folded := map[];
    assert tx[0..] == tx;
    for i := 0 to |tx|
      invariant FoldFrom(folded, Writes(tx[i..])) == FoldFrom(map[], Writes(tx))
    {
      RestSection(tx, i);
      for j := 0 to |tx[i].writes|
        invariant FoldFrom(folded, Rest(tx, i, j)) == FoldFrom(map[], Writes(tx))
      {
        RestStep(tx, i, j);
        assert Rest(tx, i, j)[1..] == Rest(tx, i, j + 1);
        var w := tx[i].writes[j];
        if w.delta.None? {
          continue;
        }
        var d := ToDelta(w.delta.value);
        if d.Err? {
          FoldFromDecodes(map[], Writes(tx));
          return None;
        }
        folded := Append(folded, Key(tx[i].ns, w.key), d.value);
      }
    }
    FoldFromDecodes(map[], Writes(tx));
    FoldFromGroups(Writes(tx));
    out := Some(folded);
  }

  // ---------- validateTypedDeltaTx ----------

  /**
   The iteration order of the folded map is chosen arbitrarily, as Go does, and handed back as a ghost result.
   */
  method ValidateTypedDeltaTx(cfg: Config, updates: Store, db: Store, tx: TxRwSet)
    returns (code: Code, ghost order: seq<Key>)
    ensures Enumerates(order, DeltaKeys(Writes(tx)))
    ensures code == CodeInOrder(cfg, Flat(updates, db), tx, order)
    ensures code == VALID <==> TypedAccepts(cfg, Flat(updates, db), tx)
    ensures code == ABORT ==> !Clean(cfg, Flat(updates, db), tx)
  {
    hide TypedAccepts, Clean, WellFormed, Decodable, DeltaMatches, Groups, Enumerates;
    ghost var s, ws := Flat(updates, db), Writes(tx);
    order := SomeOrder(DeltaKeys(ws));
    ValidExactly(cfg, s, tx, order);
    var malformed := MalformedTypedWrites(tx);
    if malformed || !cfg.enabled {
      return INVALID_OTHER_REASON, order;
    }
    var gathered := GatherDeltas(cfg, updates, db, tx);
    if gathered.Err? {
      return gathered.error, order;
    }
    GatheredAreGoverned(cfg, s, ws, gathered.value);
    var verdict;
    verdict, order := CheckFolded(cfg, updates, db, ws, gathered.value);
    ValidExactly(cfg, s, tx, order);
    if verdict.Stop? {
      return verdict.code, order;
    }
    var plain := PlainTypedWritesValid(cfg, updates, db, tx);
    if plain.Stop? {
      return plain.code, order;
    }
    code := VALID;
  }

  lemma GatheredAreGoverned(cfg: Config, s: Store, ws: seq<Write>, folded: Folded)
    requires Scan(DeltaCheck, cfg, s, ws).Pass? && Groups(folded, ws)
    ensures forall k :: k in folded ==> SchemaOf(cfg, s, k).Found?
  {
    ScanDeltasPass(cfg, s, ws);
  }

  /** One write of the first loop: the schema must exist, and agree on type, version and op. */
  function MatchDelta(cfg: Config, updates: Store, db: Store, ns: Bytes, w: KVWrite): (r: Result<Delta, Code>)
    requires w.delta.Some?
    ensures DeltaOutcome(cfg, Flat(updates, db), Write(Key(ns, w.key), w)) == if r.Ok? then Pass else Stop(r.error)
    ensures r.Ok? ==> ToDelta(w.delta.value) == Ok(r.value)
  {
    match StateSchemaLookup(cfg, updates, db, ns, w.key)
    case LookupErr => Err(ABORT)
    case NoSchema => Err(INVALID_OTHER_REASON)
    case Found(sc) =>
      if w.delta.value.typeId != sc.typeId then Err(INVALID_OTHER_REASON)
      else if w.delta.value.schemaVersion != sc.version then Err(INVALID_OTHER_REASON)
      else
        match ToDelta(w.delta.value)
        case Err(_) => Err(INVALID_OTHER_REASON)
        case Ok(d) => if AllowsOp(sc, d.op) then Ok(d) else Err(INVALID_OTHER_REASON)
  }

  /** The first loop: match every delta with its schema and fold the deltas per key. */
  method GatherDeltas(cfg: Config, updates: Store, db: Store, tx: TxRwSet) returns (r: Result<Folded, Code>)
    ensures Scan(DeltaCheck, cfg, Flat(updates, db), Writes(tx)) == if r.Ok? then Pass else Stop(r.error)
    ensures r.Ok? ==> Groups(r.value, Writes(tx))
  {
    ghost var s := Flat(updates, db);
    var folded: Folded := map[];
    assert tx[0..] == tx;
    for i := 0 to |tx|
      invariant FoldFrom(folded, Writes(tx[i..])) == FoldFrom(map[], Writes(tx))
      invariant Scan(DeltaCheck, cfg, s, Writes(tx[i..])) == Scan(DeltaCheck, cfg, s, Writes(tx))
    {
      RestSection(tx, i);
      for j := 0 to |tx[i].writes|
        invariant FoldFrom(folded, Rest(tx, i, j)) == FoldFrom(map[], Writes(tx))
        invariant Scan(DeltaCheck, cfg, s, Rest(tx, i, j)) == Scan(DeltaCheck, cfg, s, Writes(tx))
      {
        RestStep(tx, i, j);
        assert Rest(tx, i, j)[1..] == Rest(tx, i, j + 1);
        ScanStep(DeltaCheck, cfg, s, Rest(tx, i, j));
        var w := tx[i].writes[j];
        if w.delta.None? {
          continue;
        }
        var d := MatchDelta(cfg, updates, db, tx[i].ns, w);
        if d.Err? {
          return Err(d.error);
        }
        folded := Append(folded, Key(tx[i].ns, w.key), d.value);
      }
    }
    ScanDeltasPass(cfg, s, Writes(tx));
    FoldFromGroups(Writes(tx));
    r := Ok(folded);
  }

  /** The second loop: current value, checked apply and invariant, key by key in map order. */
  method CheckFolded(cfg: Config, updates: Store, db: Store, ghost ws: seq<Write>, folded: Folded)
    returns (r: Outcome, ghost order: seq<Key>)
    requires Groups(folded, ws)
    requires forall k :: k in folded ==> SchemaOf(cfg, Flat(updates, db), k).Found?
    ensures Enumerates(order, DeltaKeys(ws))
    ensures r == ScanKeys(cfg, Flat(updates, db), ws, order)
    ensures r.Pass? <==> forall k :: k in folded ==> KeyOutcome(cfg, Flat(updates, db), k, folded[k]).Pass?
  {
    hide KeyOutcome, SchemaOf, Read, Enumerates, ScanKeys;
    ghost var s := Flat(updates, db);
    var remaining := folded.Keys;
    order := NothingScanned(cfg, s, ws, remaining);
    while remaining != {}
      invariant remaining <= folded.Keys
      invariant Enumerates(order, folded.Keys - remaining)
      invariant ScanKeys(cfg, s, ws, order).Pass?
      invariant forall k :: k in folded.Keys - remaining ==> KeyOutcome(cfg, s, k, folded[k]).Pass?
      decreases remaining
    {
      var k :| k in remaining;
      r := CheckKey(cfg, updates, db, k, folded[k]);
      ghost var after := ScanKeysMore(cfg, s, ws, order, folded.Keys, remaining, k);
      if r.Stop? {
        order := order + [k] + after;
        assert !KeyOutcome(cfg, s, k, folded[k]).Pass?;
        return;
      }
      order, remaining := order + [k], remaining - {k};
    }
    assert folded.Keys - remaining == folded.Keys;
    r := Pass;
  }

  lemma OrderMore(order: seq<Key>, keys: set<Key>, remaining: set<Key>, k: Key) returns (after: seq<Key>)
    requires k in remaining && remaining <= keys && Enumerates(order, keys - remaining)
    ensures Enumerates(order + [k], keys - (remaining - {k}))
    ensures Enumerates(order + [k] + after, keys)
  {
    after := SomeOrder(remaining - {k});
    assert keys - (remaining - {k}) == keys - remaining + {k};
    EnumerateMore(order, keys - remaining, [k], {k});
    EnumerateMore(order + [k], keys - remaining + {k}, after, remaining - {k});
    assert keys - remaining + {k} + (remaining - {k}) == keys;
  }

  lemma NothingScanned(cfg: Config, s: Store, ws: seq<Write>, keys: set<Key>) returns (order: seq<Key>)
    ensures Enumerates(order, keys - keys) && ScanKeys(cfg, s, ws, order).Pass?
  {
    order := [];
  }

  /** One more key of the iteration; if it stops the scan, the order of the keys after it is immaterial. */
  lemma ScanKeysMore(cfg: Config, s: Store, ws: seq<Write>, order: seq<Key>, keys: set<Key>, remaining: set<Key>, k: Key)
    returns (after: seq<Key>)
    requires k in remaining && remaining <= keys && Enumerates(order, keys - remaining)
    requires ScanKeys(cfg, s, ws, order).Pass?
    ensures Enumerates(order + [k], keys - (remaining - {k}))
    ensures Enumerates(order + [k] + after, keys)
    ensures ScanKeys(cfg, s, ws, order + [k]) == KeyOutcome(cfg, s, k, DeltasOf(ws, k))
    ensures KeyOutcome(cfg, s, k, DeltasOf(ws, k)).Stop? ==>
              ScanKeys(cfg, s, ws, order + [k] + after) == KeyOutcome(cfg, s, k, DeltasOf(ws, k))
  {
    hide KeyOutcome, DeltasOf;
    after := OrderMore(order, keys, remaining, k);
    var os, o := KeyOutcomes(cfg, s, ws, order), KeyOutcome(cfg, s, k, DeltasOf(ws, k));
    FirstMore(os, o, KeyOutcomes(cfg, s, ws, after));
    assert KeyOutcomes(cfg, s, ws, order + [k]) == os + [o];
    assert KeyOutcomes(cfg, s, ws, order + [k] + after) == os + [o] + KeyOutcomes(cfg, s, ws, after);
  }

  method CheckKey(cfg: Config, updates: Store, db: Store, k: Key, deltas: seq<Delta>) returns (r: Outcome)
    requires SchemaOf(cfg, Flat(updates, db), k).Found?
    ensures r == KeyOutcome(cfg, Flat(updates, db), k, deltas)
  {
    var curr := CurrentInt64(updates, db, k);
    if curr.None? {
      return Stop(ABORT);
    }
    var next := TypedDelta.Apply(curr.value, deltas);
    if next.Err? {
      return Stop(INVALID_OTHER_REASON);
    }
    var inv := InvariantOf(StateSchemaLookup(cfg, updates, db, k.ns, k.key).schema);
    if inv.None? || !Holds(inv.value, next.value) {
      return Stop(INVALID_OTHER_REASON);
    }
    r := Pass;
  }

  // ---------- what the scans mean ----------

  lemma ScanRoutePass(cfg: Config, s: Store, ws: seq<Write>)
    ensures Scan(Routing, cfg, s, ws).Pass? <==> Untyped(cfg, s, ws)
    ensures Scan(Routing, cfg, s, ws) == Stop(ABORT) ==> exists w {:trigger w in ws} :: w in ws && SchemaOf(cfg, s, w.key).LookupErr?
  {
    ScanMeans(Routing, cfg, s, ws);
  }

  lemma ScanDeltasPass(cfg: Config, s: Store, ws: seq<Write>)
    ensures Scan(DeltaCheck, cfg, s, ws).Pass? <==> forall w {:trigger w in ws} :: w in ws && IsDelta(w) ==> DeltaMatches(cfg, s, w)
    ensures Scan(DeltaCheck, cfg, s, ws) != Stop(VALID)
    ensures Scan(DeltaCheck, cfg, s, ws) == Stop(ABORT) ==> exists w {:trigger w in ws} :: w in ws && SchemaOf(cfg, s, w.key).LookupErr?
  {
    ScanMeans(DeltaCheck, cfg, s, ws);
  }

  lemma ScanPlainPass(cfg: Config, s: Store, ws: seq<Write>)
    ensures Scan(PlainCheck, cfg, s, ws).Pass? <==> forall w {:trigger w in ws} :: w in ws && !IsDelta(w) ==> PlainAccepts(cfg, s, w)
    ensures Scan(PlainCheck, cfg, s, ws) != Stop(VALID)
    ensures Scan(PlainCheck, cfg, s, ws) == Stop(ABORT) ==> exists w {:trigger w in ws} :: w in ws && SchemaOf(cfg, s, w.key).LookupErr?
  {
    ScanMeans(PlainCheck, cfg, s, ws);
  }

  lemma ScanKeysPass(cfg: Config, s: Store, ws: seq<Write>, order: seq<Key>)
    ensures ScanKeys(cfg, s, ws, order).Pass? <==> forall k :: k in order ==> KeyOutcome(cfg, s, k, DeltasOf(ws, k)).Pass?
    ensures ScanKeys(cfg, s, ws, order) != Stop(VALID)
    ensures ScanKeys(cfg, s, ws, order).Stop? ==>
              exists k :: k in order && KeyOutcome(cfg, s, k, DeltasOf(ws, k)) == ScanKeys(cfg, s, ws, order)
  {
    var os := KeyOutcomes(cfg, s, ws, order);
    FirstMeans(os);
    forall k | k in order ensures KeyOutcome(cfg, s, k, DeltasOf(ws, k)) in os {
      var i :| 0 <= i < |order| && order[i] == k;
      assert os[i] in os;
    }
    forall o | o in os ensures exists k :: k in order && o == KeyOutcome(cfg, s, k, DeltasOf(ws, k)) {
      var i :| 0 <= i < |os| && os[i] == o;
      assert order[i] in order;
    }
  }

  lemma KeyPass(cfg: Config, s: Store, ws: seq<Write>, k: Key)
    requires HasDelta(ws, k) && Decodable(ws)
    ensures KeyOutcome(cfg, s, k, DeltasOf(ws, k)).Pass? <==> KeyAccepts(cfg, s, ws, k)
  {
    DeltasOfSource(ws, k);
    if Current(s, k).Some? {
      ApplyExact(Current(s, k).value, DeltasOf(ws, k));
    }
  }

  /**
   Exact verdict: VALID is independent of the iteration order and means acceptance in unbounded integers, and an
   aborted block has met something that does not parse or decode.
   */
  lemma ValidExactly(cfg: Config, s: Store, tx: TxRwSet, order: seq<Key>)
    requires Enumerates(order, DeltaKeys(Writes(tx)))
    ensures CodeInOrder(cfg, s, tx, order) == VALID <==> TypedAccepts(cfg, s, tx)
    ensures CodeInOrder(cfg, s, tx, order) == ABORT ==> !Clean(cfg, s, tx)
  {
    var ws := Writes(tx);
    ScanDeltasPass(cfg, s, ws);
    ScanPlainPass(cfg, s, ws);
    ScanKeysPass(cfg, s, ws, order);
    if Scan(DeltaCheck, cfg, s, ws).Pass? {
      AllKeysPass(cfg, s, ws, order);
    }
  }

  lemma AllKeysPass(cfg: Config, s: Store, ws: seq<Write>, order: seq<Key>)
    requires Enumerates(order, DeltaKeys(ws)) && Decodable(ws)
    ensures (forall k :: k in order ==> KeyOutcome(cfg, s, k, DeltasOf(ws, k)).Pass?)
            <==> forall w {:trigger w in ws} :: w in ws && IsDelta(w) ==> KeyAccepts(cfg, s, ws, w.key)
  {
    hide KeyOutcome, KeyAccepts, DeltasOf;
    forall k | k in DeltaKeys(ws)
      ensures KeyOutcome(cfg, s, k, DeltasOf(ws, k)).Pass? <==> KeyAccepts(cfg, s, ws, k)
    {
      KeyPass(cfg, s, ws, k);
    }
    if forall k :: k in order ==> KeyOutcome(cfg, s, k, DeltasOf(ws, k)).Pass? {
      forall w {:trigger w in ws} | w in ws && IsDelta(w) ensures KeyAccepts(cfg, s, ws, w.key) {
        assert w.key in DeltaKeys(ws) && w.key in order;
      }
    }
    if forall w {:trigger w in ws} :: w in ws && IsDelta(w) ==> KeyAccepts(cfg, s, ws, w.key) {
      forall k | k in order ensures KeyOutcome(cfg, s, k, DeltasOf(ws, k)).Pass? {
        assert k in DeltaKeys(ws);
        var w :| w in ws && IsDelta(w) && w.key == k;
      }
    }
  }

  // ---------- exactly when a block is aborted ----------

  /** Routing meets an unparsable schema record before any delta and any governed key. */
  ghost predicate RouteAborts(cfg: Config, s: Store, ws: seq<Write>) {
    exists i :: && 0 <= i < |ws| && !IsDelta(ws[i]) && SchemaOf(cfg, s, ws[i].key).LookupErr?
                && forall j :: 0 <= j < i ==> !IsDelta(ws[j]) && SchemaOf(cfg, s, ws[j].key).NoSchema?
  }

  /** The first delta that does not match its schema has an unparsable one. */
  ghost predicate DeltaAborts(cfg: Config, s: Store, ws: seq<Write>) {
    exists i :: && 0 <= i < |ws| && IsDelta(ws[i]) && SchemaOf(cfg, s, ws[i].key).LookupErr?
                && forall j :: 0 <= j < i && IsDelta(ws[j]) ==> DeltaMatches(cfg, s, ws[j])
  }

  /** All deltas match, and the first key of the iteration that fails holds bytes that do not decode. */
  ghost predicate KeyAborts(cfg: Config, s: Store, ws: seq<Write>, order: seq<Key>) {
    && (forall w {:trigger w in ws} :: w in ws && IsDelta(w) ==> DeltaMatches(cfg, s, w))
    && exists i :: && 0 <= i < |order| && Current(s, order[i]).None?
                   && forall j :: 0 <= j < i ==> KeyAccepts(cfg, s, ws, order[j])
  }

  /** All deltas pass, and the first plain write that is not acceptable has an unparsable schema. */
  ghost predicate PlainAborts(cfg: Config, s: Store, ws: seq<Write>) {
    && (forall w {:trigger w in ws} :: w in ws && IsDelta(w) ==> DeltaMatches(cfg, s, w) && KeyAccepts(cfg, s, ws, w.key))
    && exists i :: && 0 <= i < |ws| && !IsDelta(ws[i]) && SchemaOf(cfg, s, ws[i].key).LookupErr?
                   && forall j :: 0 <= j < i && !IsDelta(ws[j]) ==> PlainAccepts(cfg, s, ws[j])
  }

  lemma RouteAbortsExactly(cfg: Config, s: Store, ws: seq<Write>)
    ensures Scan(Routing, cfg, s, ws) == Stop(ABORT) <==> RouteAborts(cfg, s, ws)
  {
    hide SchemaOf;
    var os := Outcomes(Routing, cfg, s, ws);
    FirstExactly(os, ABORT);
    assert forall i :: 0 <= i < |ws| ==> (os[i] == Stop(ABORT) <==> !IsDelta(ws[i]) && SchemaOf(cfg, s, ws[i].key).LookupErr?);
    assert forall i :: 0 <= i < |ws| ==> (os[i].Pass? <==> !IsDelta(ws[i]) && SchemaOf(cfg, s, ws[i].key).NoSchema?);
  }

  lemma DeltaAbortsExactly(cfg: Config, s: Store, ws: seq<Write>)
    ensures Scan(DeltaCheck, cfg, s, ws) == Stop(ABORT) <==> DeltaAborts(cfg, s, ws)
  {
    hide SchemaOf;
    var os := Outcomes(DeltaCheck, cfg, s, ws);
    FirstExactly(os, ABORT);
    assert forall i :: 0 <= i < |ws| ==> (os[i] == Stop(ABORT) <==> IsDelta(ws[i]) && SchemaOf(cfg, s, ws[i].key).LookupErr?);
    assert forall i :: 0 <= i < |ws| ==> (os[i].Pass? <==> (IsDelta(ws[i]) ==> DeltaMatches(cfg, s, ws[i])));
  }

  lemma PlainAbortsExactly(cfg: Config, s: Store, ws: seq<Write>)
    requires forall w {:trigger w in ws} :: w in ws && IsDelta(w) ==> DeltaMatches(cfg, s, w) && KeyAccepts(cfg, s, ws, w.key)
    ensures Scan(PlainCheck, cfg, s, ws) == Stop(ABORT) <==> PlainAborts(cfg, s, ws)
  {
    hide SchemaOf, DeltaMatches, KeyAccepts;
    var os := Outcomes(PlainCheck, cfg, s, ws);
    FirstExactly(os, ABORT);
    assert forall i :: 0 <= i < |ws| ==> (os[i] == Stop(ABORT) <==> !IsDelta(ws[i]) && SchemaOf(cfg, s, ws[i].key).LookupErr?);
    assert forall i :: 0 <= i < |ws| ==> (os[i].Pass? <==> (!IsDelta(ws[i]) ==> PlainAccepts(cfg, s, ws[i])));
  }

  lemma KeyAbortsExactly(cfg: Config, s: Store, ws: seq<Write>, order: seq<Key>)
    requires Enumerates(order, DeltaKeys(ws))
    requires forall w {:trigger w in ws} :: w in ws && IsDelta(w) ==> DeltaMatches(cfg, s, w)
    ensures ScanKeys(cfg, s, ws, order) == Stop(ABORT) <==> KeyAborts(cfg, s, ws, order)
  {
    hide DeltasOf, KeyAccepts, KeyOutcome, Current;
    assert Decodable(ws);
    var os := KeyOutcomes(cfg, s, ws, order);
    FirstExactly(os, ABORT);
    forall i | 0 <= i < |order|
      ensures os[i] == Stop(ABORT) <==> Current(s, order[i]).None?
      ensures os[i].Pass? <==> KeyAccepts(cfg, s, ws, order[i])
    {
      assert order[i] in order;
      KeyPass(cfg, s, ws, order[i]);
      KeyAbort(cfg, s, order[i], DeltasOf(ws, order[i]));
    }
  }

  lemma KeyAbort(cfg: Config, s: Store, k: Key, ds: seq<Delta>)
    ensures KeyOutcome(cfg, s, k, ds) == Stop(ABORT) <==> Current(s, k).None?
  {
  }

  /** Exactly when a validated transaction aborts its block: the first thing that goes wrong does not parse or decode. */
  lemma AbortExactly(cfg: Config, s: Store, tx: TxRwSet, order: seq<Key>)
    requires Enumerates(order, DeltaKeys(Writes(tx)))
    ensures CodeInOrder(cfg, s, tx, order) == ABORT <==>
              && cfg.enabled && WellFormed(tx)
              && (DeltaAborts(cfg, s, Writes(tx)) || KeyAborts(cfg, s, Writes(tx), order) || PlainAborts(cfg, s, Writes(tx)))
  {
    hide WellFormed, Enumerates, DeltaMatches, KeyAccepts, ScanKeys, Scan, DeltasOf, DeltaAborts, KeyAborts, PlainAborts;
    var ws := Writes(tx);
    DeltaAbortsExactly(cfg, s, ws);
    ScanDeltasPass(cfg, s, ws);
    AbortsNeedPass(cfg, s, ws, order);
    if Scan(DeltaCheck, cfg, s, ws).Pass? {
      KeyAbortsExactly(cfg, s, ws, order);
      KeysPassMeans(cfg, s, ws, order);
      if ScanKeys(cfg, s, ws, order).Pass? {
        PlainAbortsExactly(cfg, s, ws);
      }
    }
  }

  /** The three ways to abort exclude each other, in the order of the checks. */
  lemma AbortsNeedPass(cfg: Config, s: Store, ws: seq<Write>, order: seq<Key>)
    ensures KeyAborts(cfg, s, ws, order) || PlainAborts(cfg, s, ws) ==>
              forall w {:trigger w in ws} :: w in ws && IsDelta(w) ==> DeltaMatches(cfg, s, w)
    ensures PlainAborts(cfg, s, ws) ==>
              forall w {:trigger w in ws} :: w in ws && IsDelta(w) ==> KeyAccepts(cfg, s, ws, w.key)
  {
    hide DeltaMatches, KeyAccepts;
  }

  lemma KeysPassMeans(cfg: Config, s: Store, ws: seq<Write>, order: seq<Key>)
    requires Enumerates(order, DeltaKeys(ws))
    requires forall w {:trigger w in ws} :: w in ws && IsDelta(w) ==> DeltaMatches(cfg, s, w)
    ensures ScanKeys(cfg, s, ws, order).Pass? <==> forall w {:trigger w in ws} :: w in ws && IsDelta(w) ==> KeyAccepts(cfg, s, ws, w.key)
  {
    hide KeyAccepts, KeyOutcome, DeltasOf;
    assert Decodable(ws);
    ScanKeysPass(cfg, s, ws, order);
    AllKeysPass(cfg, s, ws, order);
  }

  /** Some map order, or every map order, makes the transaction abort its block. */
  ghost predicate MayAbort(cfg: Config, s: Store, tx: TxRwSet) {
    RouteAborts(cfg, s, Writes(tx)) || exists order :: Enumerates(order, DeltaKeys(Writes(tx))) && CodeInOrder(cfg, s, tx, order) == ABORT
  }

  ghost predicate MustAbort(cfg: Config, s: Store, tx: TxRwSet) {
    RouteAborts(cfg, s, Writes(tx)) || forall order :: Enumerates(order, DeltaKeys(Writes(tx))) ==> CodeInOrder(cfg, s, tx, order) == ABORT
  }

  /** Where the order does not matter the two are the same. */
  lemma AbortIsDetermined(cfg: Config, s: Store, tx: TxRwSet)
    requires !OrderMatters(cfg, s, tx)
    ensures MayAbort(cfg, s, tx) <==> MustAbort(cfg, s, tx)
  {
    hide CodeInOrder, Enumerates, OrderMatters, RouteAborts;
    var some := SomeOrder(DeltaKeys(Writes(tx)));
    forall order | Enumerates(order, DeltaKeys(Writes(tx))) ensures CodeInOrder(cfg, s, tx, order) == CodeInOrder(cfg, s, tx, some) {
      OrderIndependence(cfg, s, tx, order, some);
    }
  }

  lemma UntypedNeverAborts(cfg: Config, s: Store, tx: TxRwSet)
    requires Untyped(cfg, s, Writes(tx))
    ensures !MustAbort(cfg, s, tx)
  {
    hide CodeInOrder, SchemaOf;
    var some := SomeOrder(DeltaKeys(Writes(tx)));
    ValidExactly(cfg, s, tx, some);
    assert Clean(cfg, s, tx);
    assert !RouteAborts(cfg, s, Writes(tx)) by {
      assert forall i :: 0 <= i < |Writes(tx)| ==> Writes(tx)[i] in Writes(tx);
    }
  }

  /** Some transaction of the run may, or must, abort. */
  ghost predicate SomeMayAbort(cfg: Config, s: Store, txs: seq<TxRwSet>)
    decreases |txs|
  {
    |txs| > 0 && (MayAbort(cfg, s, txs[0]) || SomeMayAbort(cfg, Step(cfg, s, txs[0]), txs[1..]))
  }

  ghost predicate SomeMustAbort(cfg: Config, s: Store, txs: seq<TxRwSet>)
    decreases |txs|
  {
    |txs| > 0 && (MustAbort(cfg, s, txs[0]) || SomeMustAbort(cfg, Step(cfg, s, txs[0]), txs[1..]))
  }

  /**
   Exactly when the verdict depends on Go's map iteration order: the scan reaches the folded map, and it holds
   both a key whose stored bytes do not decode and a key that fails a check.
   */
  ghost predicate OrderMatters(cfg: Config, s: Store, tx: TxRwSet) {
    var ws := Writes(tx);
    && cfg.enabled && WellFormed(tx)
    && (forall w {:trigger w in ws} :: w in ws && IsDelta(w) ==> DeltaMatches(cfg, s, w))
    && (exists k :: k in DeltaKeys(ws) && Current(s, k).None?)
    && (exists k :: k in DeltaKeys(ws) && Current(s, k).Some? && !KeyAccepts(cfg, s, ws, k))
  }

  lemma OrderIndependence(cfg: Config, s: Store, tx: TxRwSet, a: seq<Key>, b: seq<Key>)
    requires Enumerates(a, DeltaKeys(Writes(tx))) && Enumerates(b, DeltaKeys(Writes(tx)))
    requires !OrderMatters(cfg, s, tx)
    ensures CodeInOrder(cfg, s, tx, a) == CodeInOrder(cfg, s, tx, b)
  {
    var ws := Writes(tx);
    ScanDeltasPass(cfg, s, ws);
    if Scan(DeltaCheck, cfg, s, ws).Pass? && WellFormed(tx) && cfg.enabled {
      SameScan(cfg, s, ws, a, b);
    }
  }

  lemma SameScan(cfg: Config, s: Store, ws: seq<Write>, a: seq<Key>, b: seq<Key>)
    requires Enumerates(a, DeltaKeys(ws)) && Enumerates(b, DeltaKeys(ws)) && Decodable(ws)
    requires !(exists k :: k in DeltaKeys(ws) && Current(s, k).None?)
             || !(exists k :: k in DeltaKeys(ws) && Current(s, k).Some? && !KeyAccepts(cfg, s, ws, k))
    ensures ScanKeys(cfg, s, ws, a) == ScanKeys(cfg, s, ws, b)
  {
    ScanKeysPass(cfg, s, ws, a);
    ScanKeysPass(cfg, s, ws, b);
    assert forall k :: k in a <==> k in b;
    forall k | k in DeltaKeys(ws)
      ensures KeyOutcome(cfg, s, k, DeltasOf(ws, k)).Pass? <==> KeyAccepts(cfg, s, ws, k)
      ensures KeyOutcome(cfg, s, k, DeltasOf(ws, k)) == Stop(ABORT) <==> Current(s, k).None?
    {
      KeyPass(cfg, s, ws, k);
    }
  }

  /** When the order matters, one order aborts the block and another only rejects the transaction. */
  lemma OrderDependence(cfg: Config, s: Store, tx: TxRwSet) returns (a: seq<Key>, b: seq<Key>)
    requires OrderMatters(cfg, s, tx)
    ensures Enumerates(a, DeltaKeys(Writes(tx))) && Enumerates(b, DeltaKeys(Writes(tx)))
    ensures CodeInOrder(cfg, s, tx, a) == ABORT
    ensures CodeInOrder(cfg, s, tx, b) == INVALID_OTHER_REASON
  {
    var ws := Writes(tx);
    ScanDeltasPass(cfg, s, ws);
    var x :| x in DeltaKeys(ws) && Current(s, x).None?;
    var y :| y in DeltaKeys(ws) && Current(s, y).Some? && !KeyAccepts(cfg, s, ws, y);
    a := StopFirst(cfg, s, ws, x);
    b := StopFirst(cfg, s, ws, y);
  }

  lemma StopFirst(cfg: Config, s: Store, ws: seq<Write>, k: Key) returns (order: seq<Key>)
    requires k in DeltaKeys(ws) && Decodable(ws) && !KeyAccepts(cfg, s, ws, k)
    ensures Enumerates(order, DeltaKeys(ws))
    ensures ScanKeys(cfg, s, ws, order) == Stop(if Current(s, k).None? then ABORT else INVALID_OTHER_REASON)
  {
    order := KeyFirst(DeltaKeys(ws), k);
    KeyPass(cfg, s, ws, k);
  }

  // ---------- applying ----------

  /** The plain writes ws upserted one after another. */
  ghost function PlainOps(ops: Store, ws: seq<Write>): Store
    decreases |ws|
  {
    if |ws| == 0 then ops
    else if IsDelta(ws[0]) then PlainOps(ops, ws[1..])
    else PlainOps(ops[ws[0].key := WrittenValue(ws[0].kv)], ws[1..])
  }

  lemma {:induction false} PlainOpsAt(ops: Store, ws: seq<Write>, k: Key)
    ensures k in PlainOps(ops, ws) <==> k in ops || PlainEffect(ws, k).Some?
    ensures k in PlainOps(ops, ws) ==>
              PlainOps(ops, ws)[k] == if PlainEffect(ws, k).Some? then PlainEffect(ws, k).value else ops[k]
    decreases |ws|
  {
    if |ws| > 0 {
      PlainOpsAt(if IsDelta(ws[0]) then ops else ops[ws[0].key := WrittenValue(ws[0].kv)], ws[1..], k);
    }
  }

  /** The operations one transaction contributes to the batch; an empty value is a delete. */
  class TxOps {
    var ops: Store

    constructor ()
      ensures ops == map[]
    {
      ops := map[];
    }

    method Upsert(k: Key, v: Bytes)
      modifies this
      ensures ops == old(ops)[k := v]
    {
      ops := ops[k := v];
    }

    /** The plain writes, in order. */
    method ApplyPlainWrites(tx: TxRwSet)
      modifies this
      ensures ops == PlainOps(old(ops), Writes(tx))
    {
      assert tx[0..] == tx;
      for i := 0 to |tx|
        invariant PlainOps(ops, Writes(tx[i..])) == PlainOps(old(ops), Writes(tx))
      {
        RestSection(tx, i);
        for j := 0 to |tx[i].writes|
          invariant PlainOps(ops, Rest(tx, i, j)) == PlainOps(old(ops), Writes(tx))
        {
          RestStep(tx, i, j);
          assert Rest(tx, i, j)[1..] == Rest(tx, i, j + 1);
          var w := tx[i].writes[j];
          if w.delta.None? {
            Upsert(Key(tx[i].ns, w.key), WrittenValue(w));
          }
        }
      }
    }

    /** The second pass: fold again and store, in any order; nothing but the delta keys is touched. */
    method ApplyTypedDeltas(tx: TxRwSet, updates: Store, db: Store) returns (ok: bool)
      modifies this
      ensures ok <==> Materialisable(Flat(updates, db), Writes(tx))
      ensures ok ==> ops == old(ops) + Materialised(Flat(updates, db), Writes(tx), DeltaKeys(Writes(tx)))
    {
      var folded := FoldPublicDeltas(tx);
      if folded.None? {
        return false;
      }
      ok := StoreFolded(Writes(tx), folded.value, updates, db);
      MaterialKeysMeans(Flat(updates, db), Writes(tx));
    }

    method StoreFolded(ghost ws: seq<Write>, folded: Folded, updates: Store, db: Store) returns (ok: bool)
      requires Groups(folded, ws)
      modifies this
      ensures ok <==> DeltaKeys(ws) <= MaterialKeys(Flat(updates, db), ws)
      ensures ok ==> ops == old(ops) + Materialised(Flat(updates, db), ws, DeltaKeys(ws))
    {
      hide NewValue, Sums, Read, Encode, Restrict, MaterialKeys, Flat, DeltaKeys, Current, Sum;
      ghost var s := Flat(updates, db);
      ghost var values := Materialised(s, ws, DeltaKeys(ws));
      var remaining := folded.Keys;
      assert remaining == values.Keys;
      StoreEnds(ops, values);
      while remaining != {}
        invariant remaining <= values.Keys
        invariant ops == old(ops) + Restrict(values, values.Keys - remaining)
        invariant values.Keys - remaining <= MaterialKeys(s, ws)
        decreases remaining
      {
        var k :| k in remaining;
        var next := NextValue(k, folded[k], updates, db);
        DeltaValue(s, ws, k);
        if next.None? {
          return false;
        }
        StoreOne(old(ops), values, remaining, k, ops);
        assert next.value == values[k];
        Upsert(k, next.value);
        remaining := remaining - {k};
      }
      ok := true;
    }
  }

  ghost function MaterialKeys(s: Store, ws: seq<Write>): set<Key> {
    set k | k in DeltaKeys(ws) && KeyMaterialises(s, ws, k)
  }

  lemma MaterialKeysMeans(s: Store, ws: seq<Write>)
    requires Decodable(ws)
    ensures DeltaKeys(ws) <= MaterialKeys(s, ws) <==> Materialisable(s, ws)
  {
    assert forall k :: k in DeltaKeys(ws) ==> (k in MaterialKeys(s, ws) <==> KeyMaterialises(s, ws, k));
    assert forall w {:trigger w in ws} :: w in ws && IsDelta(w) ==> w.key in DeltaKeys(ws);
  }

  lemma DeltaValue(s: Store, ws: seq<Write>, k: Key)
    requires k in DeltaKeys(ws)
    ensures k in MaterialKeys(s, ws) <==> Sums(s, k, DeltasOf(ws, k))
    ensures Sums(s, k, DeltasOf(ws, k)) ==>
              Materialised(s, ws, DeltaKeys(ws))[k] == Encode(Current(s, k).value + Sum(DeltasOf(ws, k)))
  {
    hide Sums, DeltasOf, Current;
    assert HasDelta(ws, k);
  }

  /** Current value, checked apply and canonical encoding of one delta key. */
  method NextValue(k: Key, deltas: seq<Delta>, updates: Store, db: Store) returns (r: Option<Bytes>)
    requires |deltas| > 0
    ensures r.Some? <==> Sums(Flat(updates, db), k, deltas)
    ensures r.Some? ==> r.value == Encode(Current(Flat(updates, db), k).value + Sum(deltas))
  {
    var curr := CurrentInt64(updates, db, k);
    if curr.None? {
      return None;
    }
    var next := TypedDelta.Apply(curr.value, deltas);
    if next.Err? {
      return None;
    }
    r := Some(Encode(next.value));
  }

  /** The values that the deltas leave at the given keys. */
  ghost function Materialised(s: Store, ws: seq<Write>, ks: set<Key>): Store {
    map k | k in ks :: NewValue(s, ws, k)
  }

  // ---------- the block loop ----------

  /**
   The loop around the hooks: route, validate against the preceding updates, apply if VALID. However maps are
   iterated, verdicts and final store are those of the flat run.
   */
  method ValidateAndPrepareBatch(cfg: Config, db: Store, txs: seq<TxRwSet>)
    returns (r: Result<Store, Code>, codes: seq<Code>)
    ensures r.Ok? ==> Flat(r.value, db) == Run(cfg, Flat(map[], db), txs)
    ensures r.Ok? ==> codes == Verdicts(cfg, Flat(map[], db), txs)
    ensures r.Err? ==> !AllClean(cfg, Flat(map[], db), txs) && SomeMayAbort(cfg, Flat(map[], db), txs)
    ensures SomeMustAbort(cfg, Flat(map[], db), txs) ==> r.Err?
  {
    hide Flat, Read, Accepts, Clean, ApplyTx, Writes, Run, Verdicts, AllClean, MayAbort, MustAbort, SomeMayAbort, SomeMustAbort;
    ghost var s0 := Flat(map[], db);
    var updates: Store := map[];
    codes := [];
    assert txs[0..] == txs;
    for i := 0 to |txs|
      invariant Run(cfg, Flat(updates, db), txs[i..]) == Run(cfg, s0, txs)
      invariant codes + Verdicts(cfg, Flat(updates, db), txs[i..]) == Verdicts(cfg, s0, txs)
      invariant AllClean(cfg, s0, txs) ==> AllClean(cfg, Flat(updates, db), txs[i..])
      invariant SomeMayAbort(cfg, Flat(updates, db), txs[i..]) ==> SomeMayAbort(cfg, s0, txs)
      invariant SomeMustAbort(cfg, s0, txs) ==> SomeMustAbort(cfg, Flat(updates, db), txs[i..])
    {
      AbortHead(cfg, Flat(updates, db), txs, i);
      RunHead(cfg, Flat(updates, db), txs, i);
      var code := ValidateOne(cfg, updates, db, txs[i]);
      if code == ABORT {
        return Err(ABORT), codes;
      }
      if code == VALID {
        updates := ApplyValid(cfg, updates, db, txs[i]);
      }
      codes := codes + [code];
    }
    RunEnd(cfg, Flat(updates, db), txs);
    assert !SomeMustAbort(cfg, Flat(updates, db), txs[|txs|..]) by { NothingAborts(cfg, Flat(updates, db), txs[|txs|..]); }
    assert codes + [] == codes;
    r := Ok(updates);
  }

  lemma RunHead(cfg: Config, s: Store, txs: seq<TxRwSet>, i: nat)
    requires i < |txs|
    ensures Run(cfg, s, txs[i..]) == Run(cfg, Step(cfg, s, txs[i]), txs[i + 1..])
    ensures Verdicts(cfg, s, txs[i..]) == [Verdict(cfg, s, txs[i])] + Verdicts(cfg, Step(cfg, s, txs[i]), txs[i + 1..])
    ensures AllClean(cfg, s, txs[i..]) ==> Clean(cfg, s, txs[i]) && AllClean(cfg, Step(cfg, s, txs[i]), txs[i + 1..])
  {
    hide Step, Verdict, Clean;
    assert txs[i..][0] == txs[i] && txs[i..][1..] == txs[i + 1..];
  }

  lemma AbortHead(cfg: Config, s: Store, txs: seq<TxRwSet>, i: nat)
    requires i < |txs|
    ensures SomeMayAbort(cfg, s, txs[i..]) <==> MayAbort(cfg, s, txs[i]) || SomeMayAbort(cfg, Step(cfg, s, txs[i]), txs[i + 1..])
    ensures SomeMustAbort(cfg, s, txs[i..]) <==> MustAbort(cfg, s, txs[i]) || SomeMustAbort(cfg, Step(cfg, s, txs[i]), txs[i + 1..])
  {
    hide Step, MayAbort, MustAbort;
    assert txs[i..][0] == txs[i] && txs[i..][1..] == txs[i + 1..];
  }

  lemma NothingAborts(cfg: Config, s: Store, txs: seq<TxRwSet>)
    requires |txs| == 0
    ensures !SomeMustAbort(cfg, s, txs)
  {
  }

  lemma RunEnd(cfg: Config, s: Store, txs: seq<TxRwSet>)
    ensures Run(cfg, s, txs[|txs|..]) == s && Verdicts(cfg, s, txs[|txs|..]) == []
    ensures |txs| == 0 ==> Run(cfg, s, txs) == s && Verdicts(cfg, s, txs) == []
  {
  }

  /** Adds a VALID transaction to the batch. The apply pass reports no error, because the check pass saw none. */
  method ApplyValid(cfg: Config, updates: Store, db: Store, tx: TxRwSet) returns (updates': Store)
    requires Accepts(cfg, Flat(updates, db), tx)
    ensures Flat(updates', db) == ApplyTx(Flat(updates, db), Writes(tx))
  {
    var txops := new TxOps();
    txops.ApplyPlainWrites(tx);
    AcceptedMaterialises(cfg, Flat(updates, db), tx);
    var ok := txops.ApplyTypedDeltas(tx, updates, db);
    assert ok;
    OpsAreEffect(updates, db, Writes(tx));
    updates' := updates + txops.ops;
  }

  lemma OpsAreEffect(updates: Store, db: Store, ws: seq<Write>)
    ensures Flat(updates + (PlainOps(map[], ws) + Materialised(Flat(updates, db), ws, DeltaKeys(ws))), db)
            == ApplyTx(Flat(updates, db), ws)
  {
    var s := Flat(updates, db);
    var ops := PlainOps(map[], ws) + Materialised(s, ws, DeltaKeys(ws));
    forall k ensures Get(Flat(updates + ops, db), k) == NewValue(s, ws, k) {
      PlainOpsAt(map[], ws, k);
      assert Get(Flat(updates + ops, db), k) == if k in ops then ops[k] else Get(s, k);
      assert k in DeltaKeys(ws) <==> HasDelta(ws, k);
    }
    StoreExtensional(Flat(updates + ops, db), ApplyTx(s, ws));
  }

  method ValidateOne(cfg: Config, updates: Store, db: Store, tx: TxRwSet) returns (code: Code)
    ensures code == VALID <==> Accepts(cfg, Flat(updates, db), tx)
    ensures code == ABORT ==> !Clean(cfg, Flat(updates, db), tx) && MayAbort(cfg, Flat(updates, db), tx)
    ensures MustAbort(cfg, Flat(updates, db), tx) ==> code == ABORT
  {
    hide Untyped, Accepts, Clean, TypedAccepts, CodeInOrder, RouteAborts, Scan;
    ghost var s := Flat(updates, db);
    RouteSound(cfg, s, tx);
    RouteAbortsExactly(cfg, s, Writes(tx));
    AcceptsByRoute(cfg, s, tx);
    var route := TxTouchesTypedState(cfg, updates, db, tx);
    if route.Err? {
      return ABORT;
    }
    if !route.value {
      UntypedNeverAborts(cfg, s, tx);
      return VALID;
    }
    ghost var order;
    code, order := ValidateTypedDeltaTx(cfg, updates, db, tx);
  }

  lemma AcceptsByRoute(cfg: Config, s: Store, tx: TxRwSet)
    ensures Accepts(cfg, s, tx) <==> Untyped(cfg, s, Writes(tx)) || TypedAccepts(cfg, s, tx)
  {
  }

  lemma RouteSound(cfg: Config, s: Store, tx: TxRwSet)
    ensures Scan(Routing, cfg, s, Writes(tx)).Pass? <==> Untyped(cfg, s, Writes(tx))
    ensures Scan(Routing, cfg, s, Writes(tx)) == Stop(ABORT) ==> !Clean(cfg, s, tx) && !Accepts(cfg, s, tx)
  {
    ScanRoutePass(cfg, s, Writes(tx));
    if Scan(Routing, cfg, s, Writes(tx)) == Stop(ABORT) {
      var w :| w in Writes(tx) && SchemaOf(cfg, s, w.key).LookupErr?;
      LookupErrRejects(cfg, s, tx, w);
    }
  }

  lemma LookupErrRejects(cfg: Config, s: Store, tx: TxRwSet, w: Write)
    requires w in Writes(tx) && SchemaOf(cfg, s, w.key).LookupErr?
    ensures !Clean(cfg, s, tx) && !Accepts(cfg, s, tx)
  {
    assert !Untyped(cfg, s, Writes(tx));
    assert !TypedAccepts(cfg, s, tx);
  }

  lemma NoUpdates(db: Store)
    requires Normal(db)
    ensures Flat(map[], db) == db
  {
    StoreExtensional(Flat(map[], db), db);
  }

  /** One block against a committed database. */
  method CommitBlock(cfg: Config, db: Store, txs: seq<TxRwSet>) returns (r: Result<Store, Code>, codes: seq<Code>)
    requires Normal(db)
    ensures r.Ok? ==> r.value == Run(cfg, db, txs) && Normal(r.value) && codes == Verdicts(cfg, db, txs)
    ensures r.Err? ==> !AllClean(cfg, db, txs) && SomeMayAbort(cfg, db, txs)
    ensures SomeMustAbort(cfg, db, txs) ==> r.Err?
  {
    NoUpdates(db);
    var batch;
    batch, codes := ValidateAndPrepareBatch(cfg, db, txs);
    if batch.Err? {
      return Err(batch.error), codes;
    }
    r := Ok(Flat(batch.value, db));
  }

  lemma {:induction false} AbortConcat(cfg: Config, s: Store, a: seq<TxRwSet>, b: seq<TxRwSet>)
    ensures SomeMayAbort(cfg, s, a + b) <==> SomeMayAbort(cfg, s, a) || SomeMayAbort(cfg, Run(cfg, s, a), b)
    ensures SomeMustAbort(cfg, s, a + b) <==> SomeMustAbort(cfg, s, a) || SomeMustAbort(cfg, Run(cfg, s, a), b)
    decreases |a|
  {
    hide Step, MayAbort, MustAbort;
    if |a| == 0 {
      assert a + b == b;
    } else {
      AbortConcat(cfg, Step(cfg, s, a[0]), a[1..], b);
      assert (a + b)[0] == a[0] && (a + b)[1..] == a[1..] + b;
    }
  }

  /**
   Committing block after block: the result depends on the stream of transactions only, not on where it is cut
   into blocks.
   */
  method CommitBlocks(cfg: Config, genesis: Store, blocks: seq<seq<TxRwSet>>)
    returns (r: Result<Store, Code>, codes: seq<Code>)
    requires Normal(genesis)
    ensures r.Ok? ==> r.value == Run(cfg, genesis, Flatten(blocks))
    ensures r.Ok? ==> codes == Verdicts(cfg, genesis, Flatten(blocks))
    ensures r.Err? ==> !AllClean(cfg, genesis, Flatten(blocks)) && SomeMayAbort(cfg, genesis, Flatten(blocks))
    ensures SomeMustAbort(cfg, genesis, Flatten(blocks)) ==> r.Err?
  {
    hide Run, Verdicts, AllClean, SomeMayAbort, SomeMustAbort, Normal;
    var db := genesis;
    codes := [];
    assert blocks[0..] == blocks;
    for b := 0 to |blocks|
      invariant Normal(db) && Run(cfg, db, Flatten(blocks[b..])) == Run(cfg, genesis, Flatten(blocks))
      invariant codes + Verdicts(cfg, db, Flatten(blocks[b..])) == Verdicts(cfg, genesis, Flatten(blocks))
      invariant AllClean(cfg, genesis, Flatten(blocks)) ==> AllClean(cfg, db, Flatten(blocks[b..]))
      invariant SomeMayAbort(cfg, db, Flatten(blocks[b..])) ==> SomeMayAbort(cfg, genesis, Flatten(blocks))
      invariant SomeMustAbort(cfg, genesis, Flatten(blocks)) ==> SomeMustAbort(cfg, db, Flatten(blocks[b..]))
    {
      assert blocks[b..][0] == blocks[b] && blocks[b..][1..] == blocks[b + 1..];
      RunConcat(cfg, db, blocks[b], Flatten(blocks[b + 1..]));
      VerdictsConcat(cfg, db, blocks[b], Flatten(blocks[b + 1..]));
      AllCleanConcat(cfg, db, blocks[b], Flatten(blocks[b + 1..]));
      AbortConcat(cfg, db, blocks[b], Flatten(blocks[b + 1..]));
      var next, more := CommitBlock(cfg, db, blocks[b]);
      if next.Err? {
        return Err(next.error), codes;
      }
      db := next.value;
      codes := codes + more;
    }
    assert Flatten(blocks[|blocks|..]) == [];
    RunEnd(cfg, db, []);
    NothingAborts(cfg, db, []);
    assert codes + [] == codes;
    r := Ok(db);
  }
}
