/** The history query of history/query_executer.go, and its agreement with the state database. */
module History {
  import opened Prelude
  import opened Int64
  import opened TypedDelta
  import opened RwSet
  import opened Validation

  /** `deltaFromDescriptor`, history's own reading of a descriptor. */
  function DeltaFromDescriptor(d: Descriptor): (r: Option<Delta>)
    ensures r.Some? <==> ToDelta(d).Ok? && ProperDelta(ToDelta(d).value)
    ensures r.Some? ==> ToDelta(d) == Ok(r.value)
  {
    match Decode(d.arg)
    case None => None
    case Some(arg) =>
      if arg < 0 then None
      else if d.op.ADD? then Some(Delta(OP_ADD, arg))
      else if d.op.SUB? then Some(Delta(OP_SUB, arg))
      else None
  }

  /** A transaction as the block store hands it back. */
  datatype Tran = Tran(id: nat, rwset: TxRwSet)

  /** A history entry; a delete carries no value. */
  datatype KeyModification = KeyModification(txId: nat, value: Bytes, isDelete: bool)

  /** `getKeyWritesFromTran`: the writes to the key in the first section of the namespace. */
  function KeyWrites(tx: TxRwSet, k: Key): seq<KVWrite> {
    if |tx| == 0 then []
    else if tx[0].ns == k.ns then WritesTo(tx[0].writes, k.key)
    else KeyWrites(tx[1..], k)
  }

  function WritesTo(kvs: seq<KVWrite>, key: Bytes): seq<KVWrite> {
    if |kvs| == 0 then []
    else if Same(kvs[0].key, key) then [kvs[0]] + WritesTo(kvs[1..], key)
    else WritesTo(kvs[1..], key)
  }

  /** The first plain write, if any. */
  function FirstPlain(kvs: seq<KVWrite>): Option<KVWrite> {
    if |kvs| == 0 then None else if kvs[0].delta.None? then Some(kvs[0]) else FirstPlain(kvs[1..])
  }

  /** The deltas of writes that are all deltas; None when one does not decode. */
  function AllDeltas(kvs: seq<KVWrite>): Option<seq<Delta>> {
    if |kvs| == 0 then Some([])
    else if kvs[0].delta.None? then None
    else
      match (DeltaFromDescriptor(kvs[0].delta.value), AllDeltas(kvs[1..]))
      case (Some(d), Some(ds)) => Some([d] + ds)
      case _ => None
  }

  /** The entry for one transaction's writes to the key, and the running value after it. */
  function Modification(id: nat, kvs: seq<KVWrite>, running: int64): (KeyModification, int64)
    requires |kvs| > 0
  {
    match FirstPlain(kvs)
    case Some(w) =>
      if IsKVWriteDelete(w) then (KeyModification(id, [], true), 0)
      else (KeyModification(id, w.value, false), match Decode(w.value) case Some(v) => v case None => running)
    case None =>
      match AllDeltas(kvs)
      case None => (KeyModification(id, kvs[0].value, IsKVWriteDelete(kvs[0])), running)
      case Some(ds) =>
        var next := match ApplyResult(running, ds) case Ok(v) => v case Err(_) => running;
        (KeyModification(id, Encode(next), false), next)
  }

  /** The entry and the running value, case by case. */
  lemma EntryCases(id: nat, kvs: seq<KVWrite>, running: int64, i: nat)
    requires i < |kvs| && forall j :: 0 <= j < i ==> kvs[j].delta.Some?
    requires kvs[i].delta.None? || i == |kvs| - 1
    ensures var (mod, next) := Modification(id, kvs, running);
            var w := kvs[i];
            if w.delta.None? then
              if w.isDelete || |w.value| == 0 then mod == KeyModification(id, [], true) && next == 0
              else mod == KeyModification(id, w.value, false) && next == if |w.value| == 8 then Decode(w.value).value else running
            else if exists v :: v in kvs && DeltaFromDescriptor(v.delta.value).None? then
              mod == KeyModification(id, kvs[0].value, kvs[0].isDelete || |kvs[0].value| == 0) && next == running
            else mod == KeyModification(id, Encode(next), false) && AllDeltas(kvs).Some? && (ApplyResult(running, AllDeltas(kvs).value).Err? ==> next == running)
  {
    hide Decode, ApplyResult;
    if kvs[i].delta.None? {
      FirstPlainAt(kvs, i);
    } else {
      AllDeltaNoPlain(kvs);
      AllDeltasExactly(kvs);
    }
  }

  lemma {:induction false} FirstPlainAt(kvs: seq<KVWrite>, i: nat)
    requires i < |kvs| && kvs[i].delta.None? && forall j :: 0 <= j < i ==> kvs[j].delta.Some?
    ensures FirstPlain(kvs) == Some(kvs[i])
  {
    if i > 0 {
      FirstPlainAt(kvs[1..], i - 1);
    }
  }

  lemma {:induction false} AllDeltasExactly(kvs: seq<KVWrite>)
    requires forall j :: 0 <= j < |kvs| ==> kvs[j].delta.Some?
    ensures AllDeltas(kvs).None? <==> exists v :: v in kvs && DeltaFromDescriptor(v.delta.value).None?
  {
    hide DeltaFromDescriptor;
    if |kvs| > 0 {
      AllDeltasExactly(kvs[1..]);
      assert forall v :: v in kvs <==> v == kvs[0] || v in kvs[1..];
    }
  }

  method FoldKeyModificationFromTran(tran: Tran, k: Key, running: int64) returns (mod: Option<KeyModification>, next: int64)
    ensures mod.Some? <==> |KeyWrites(tran.rwset, k)| > 0
    ensures mod.None? ==> next == running
    ensures mod.Some? ==> (mod.value, next) == Modification(tran.id, KeyWrites(tran.rwset, k), running)
  {
    var writes := KeyWrites(tran.rwset, k);
    if |writes| == 0 {
      return None, running;
    }
    assert writes[0..] == writes;
    for i := 0 to |writes|
      invariant FirstPlain(writes[i..]) == FirstPlain(writes)
    {
      assert writes[i..][1..] == writes[i + 1..];
      var w := writes[i];
      if w.delta.Some? {
        continue;
      }
      if IsKVWriteDelete(w) {
        return Some(KeyModification(tran.id, [], true)), 0;
      }
      var v := Decode(w.value);
      return Some(KeyModification(tran.id, w.value, false)), if v.Some? then v.value else running;
    }
    mod, next := FoldDeltas(tran.id, writes, running);
  }

  /** The delta branch: decode every descriptor, then apply them to the running value. */
  method FoldDeltas(id: nat, writes: seq<KVWrite>, running: int64) returns (mod: Option<KeyModification>, next: int64)
    requires |writes| > 0 && FirstPlain(writes).None?
    ensures mod.Some? && (mod.value, next) == Modification(id, writes, running)
  {
    NoPlainAllDeltas(writes);
    var deltas := [];
    assert writes[0..] == writes;
    for i := 0 to |writes|
      invariant AllDeltas(writes).Some? <==> AllDeltas(writes[i..]).Some?
      invariant AllDeltas(writes).Some? ==> AllDeltas(writes).value == deltas + AllDeltas(writes[i..]).value
    {
      assert writes[i..][1..] == writes[i + 1..];
      var d := DeltaFromDescriptor(writes[i].delta.value);
      if d.None? {
        return Some(KeyModification(id, writes[0].value, IsKVWriteDelete(writes[0]))), running;
      }
      deltas := deltas + [d.value];
    }
    assert deltas + [] == deltas;
    var applied := TypedDelta.Apply(running, deltas);
    next := if applied.Ok? then applied.value else running;
    mod := Some(KeyModification(id, Encode(next), false));
  }

  lemma {:induction false} NoPlainAllDeltas(kvs: seq<KVWrite>)
    requires FirstPlain(kvs).None?
    ensures forall i :: 0 <= i < |kvs| ==> kvs[i].delta.Some?
  {
    if |kvs| > 0 {
      NoPlainAllDeltas(kvs[1..]);
    }
  }

  // ---------- the query ----------

  /** The entries in commit order, oldest first, for transactions the index lists. */
  function FoldHistory(trans: seq<Tran>, k: Key, running: int64): (seq<KeyModification>, int64)
    decreases |trans|
  {
    if |trans| == 0 then ([], running)
    else if |KeyWrites(trans[0].rwset, k)| == 0 then FoldHistory(trans[1..], k, running)
    else
      var (mod, next) := Modification(trans[0].id, KeyWrites(trans[0].rwset, k), running);
      var (mods, last) := FoldHistory(trans[1..], k, next);
      ([mod] + mods, last)
  }

  function Reversed<T>(s: seq<T>): (r: seq<T>)
    ensures |r| == |s|
    ensures forall i :: 0 <= i < |s| ==> r[i] == s[|s| - 1 - i]
  {
    seq(|s|, i requires 0 <= i < |s| => s[|s| - 1 - i])
  }

  /** `GetHistoryForKey` over the transactions that the index lists for the key, oldest first. */
  method GetHistoryForKey(index: seq<Tran>, k: Key) returns (scanner: HistoryScanner)
    ensures fresh(scanner) && scanner.pos == 0
    ensures scanner.mods == Reversed(FoldHistory(index, k, 0).0)
  {
    var mods: seq<KeyModification> := [];
    var running: int64 := 0;
    assert index[0..] == index;
    for i := 0 to |index|
      invariant mods + FoldHistory(index[i..], k, running).0 == FoldHistory(index, k, 0).0
    {
      assert index[i..][1..] == index[i + 1..];
      var mod, next := FoldKeyModificationFromTran(index[i], k, running);
      if mod.None? {
        continue;
      }
      running := next;
      mods := mods + [mod.value];
    }
    assert mods + [] == mods;
    var a := new KeyModification[|mods|](i requires 0 <= i < |mods| => mods[i]);
    assert a[..] == mods;
    ReverseInPlace(a);
    scanner := new HistoryScanner(a[..]);
  }

  method ReverseInPlace(a: array<KeyModification>)
    modifies a
    ensures a[..] == Reversed(old(a[..]))
  {
    var i, j := 0, a.Length - 1;
    while i < j
      invariant 0 <= i <= a.Length && j == a.Length - 1 - i && i <= j + 1
      invariant forall n :: 0 <= n < i ==> a[n] == old(a[a.Length - 1 - n]) && a[a.Length - 1 - n] == old(a[n])
      invariant forall n :: i <= n <= j ==> a[n] == old(a[n])
    {
      a[i], a[j] := a[j], a[i];
      i, j := i + 1, j - 1;
    }
  }

  class HistoryScanner {
    const mods: seq<KeyModification>
    var pos: nat

    constructor (mods: seq<KeyModification>)
      ensures this.mods == mods && pos == 0
    {
      this.mods, pos := mods, 0;
    }

    method Next() returns (m: Option<KeyModification>)
      modifies this
      ensures old(pos) < |mods| ==> m == Some(mods[old(pos)]) && pos == old(pos) + 1
      ensures old(pos) >= |mods| ==> m == None && pos == old(pos)
    {
      if pos >= |mods| {
        return None;
      }
      m := Some(mods[pos]);
      pos := pos + 1;
    }
  }

  // ---------- agreement with the state database ----------

  /** The writes addressed to k, in order. */
  ghost function View(ws: seq<Write>, k: Key): seq<KVWrite> {
    if |ws| == 0 then []
    else if Same(ws[0].key, k) then [ws[0].kv] + View(ws[1..], k)
    else View(ws[1..], k)
  }

  lemma {:induction false} ViewConcat(a: seq<Write>, b: seq<Write>, k: Key)
    ensures View(a + b, k) == View(a, k) + View(b, k)
  {
    if |a| == 0 {
      assert a + b == b;
    } else {
      ViewConcat(a[1..], b, k);
      assert (a + b)[1..] == a[1..] + b;
    }
  }

  lemma {:induction false} ViewSection(sec: NsRwSet, k: Key)
    ensures View(SectionWrites(sec), k) == if sec.ns == k.ns then WritesTo(sec.writes, k.key) else []
    decreases |sec.writes|
  {
    if |sec.writes| > 0 {
      var rest := NsRwSet(sec.ns, sec.writes[1..]);
      ViewSection(rest, k);
      assert SectionWrites(sec)[1..] == SectionWrites(rest);
    }
  }

  /** Namespaces appear once, so the first section of the namespace holds all the key's writes. */
  lemma {:induction false} KeyWritesAreView(tx: TxRwSet, k: Key)
    requires NamespacesOnce(tx)
    ensures KeyWrites(tx, k) == View(Writes(tx), k)
  {
    if |tx| > 0 {
      ViewSection(tx[0], k);
      ViewConcat(SectionWrites(tx[0]), Writes(tx[1..]), k);
      KeyWritesAreView(tx[1..], k);
      if tx[0].ns == k.ns {
        ForeignView(tx[1..], k);
      }
    }
  }

  lemma {:induction false} ForeignView(tx: TxRwSet, k: Key)
    requires forall i :: 0 <= i < |tx| ==> tx[i].ns != k.ns
    ensures View(Writes(tx), k) == []
  {
    if |tx| > 0 {
      ViewSection(tx[0], k);
      ViewConcat(SectionWrites(tx[0]), Writes(tx[1..]), k);
      ForeignView(tx[1..], k);
    }
  }

  ghost predicate OnePlain(kvs: seq<KVWrite>) {
    forall a, b :: 0 <= a < b < |kvs| ==> kvs[a].delta.Some? || kvs[b].delta.Some?
  }

  lemma {:induction false} WritesToOnePlain(kvs: seq<KVWrite>, key: Bytes)
    requires RegularSection(kvs)
    ensures OnePlain(WritesTo(kvs, key))
    ensures forall w :: w in WritesTo(kvs, key) ==> w in kvs && w.key == key
  {
    if |kvs| > 0 {
      WritesToOnePlain(kvs[1..], key);
      if kvs[0].key == key {
        var rest := WritesTo(kvs[1..], key);
        forall b | 0 <= b < |rest| ensures kvs[0].delta.Some? || rest[b].delta.Some? {
          assert rest[b] in rest;
          var n :| 1 <= n < |kvs| && kvs[n] == rest[b];
        }
      }
    }
  }

  lemma {:induction false} KeyWritesOnePlain(tx: TxRwSet, k: Key)
    requires Regular(tx)
    ensures OnePlain(KeyWrites(tx, k))
  {
    if |tx| > 0 {
      if tx[0].ns == k.ns {
        WritesToOnePlain(tx[0].writes, k.key);
      } else {
        KeyWritesOnePlain(tx[1..], k);
      }
    }
  }

  lemma {:induction false} ViewHasPlain(ws: seq<Write>, k: Key)
    ensures PlainEffect(ws, k).Some? <==> FirstPlain(View(ws, k)).Some?
    ensures |View(ws, k)| > 0 <==> k in Touched(ws)
    ensures FirstPlain(View(ws, k)).None? && |View(ws, k)| > 0 ==> HasDelta(ws, k)
  {
    if |ws| > 0 {
      HeadOrTail(ws);
      if ws[0].key == k {
        assert View(ws, k)[1..] == View(ws[1..], k);
      }
      ViewHasPlain(ws[1..], k);
    }
  }

  /** The key's first plain write, which history reports, leaves what its last one, which the state keeps, leaves. */
  ghost predicate FirstIsLast(ws: seq<Write>, k: Key) {
    FirstPlain(View(ws, k)).Some? && PlainEffect(ws, k).Some? ==>
      WrittenValue(FirstPlain(View(ws, k)).value) == PlainEffect(ws, k).value
  }

  /** One plain write per key is enough for that. */
  lemma RegularFirstIsLast(tx: TxRwSet, k: Key)
    requires Regular(tx)
    ensures FirstIsLast(Writes(tx), k)
  {
    KeyWritesAreView(tx, k);
    KeyWritesOnePlain(tx, k);
    ViewPlain(Writes(tx), k);
  }

  lemma {:induction false} ViewPlain(ws: seq<Write>, k: Key)
    requires OnePlain(View(ws, k))
    ensures PlainEffect(ws, k) == match FirstPlain(View(ws, k)) case None => None case Some(w) => Some(WrittenValue(w))
    ensures |View(ws, k)| > 0 <==> k in Touched(ws)
    ensures FirstPlain(View(ws, k)).None? && |View(ws, k)| > 0 ==> HasDelta(ws, k)
  {
    if |ws| > 0 {
      HeadOrTail(ws);
      if ws[0].key == k {
        assert View(ws, k)[1..] == View(ws[1..], k);
      }
      ViewPlain(ws[1..], k);
      if ws[0].key == k && !IsDelta(ws[0]) {
        OnlyFirstPlain(View(ws, k));
      }
    }
  }

  lemma {:induction false} OnlyFirstPlain(kvs: seq<KVWrite>)
    requires OnePlain(kvs) && |kvs| > 0 && kvs[0].delta.None?
    ensures FirstPlain(kvs[1..]).None?
  {
    forall i | 1 <= i < |kvs| ensures kvs[i].delta.Some? {
    }
    AllDeltaNoPlain(kvs[1..]);
  }

  lemma {:induction false} AllDeltaNoPlain(kvs: seq<KVWrite>)
    requires forall i :: 0 <= i < |kvs| ==> kvs[i].delta.Some?
    ensures FirstPlain(kvs).None?
  {
    if |kvs| > 0 {
      AllDeltaNoPlain(kvs[1..]);
    }
  }

  lemma {:induction false} ViewDeltas(ws: seq<Write>, k: Key)
    requires Decodable(ws) && FirstPlain(View(ws, k)).None?
    requires forall d :: d in DeltasOf(ws, k) ==> ProperDelta(d)
    ensures AllDeltas(View(ws, k)) == Some(DeltasOf(ws, k))
  {
    if |ws| > 0 {
      HeadOrTail(ws);
      if ws[0].key == k {
        assert View(ws, k)[1..] == View(ws[1..], k);
        var d := ToDelta(ws[0].kv.delta.value).value;
        assert d in DeltasOf(ws, k);
      }
      ViewDeltas(ws[1..], k);
    }
  }

  /** A well-formed transaction does not both write and add to a key. */
  lemma NoMix(tx: TxRwSet, w: Write, v: Write)
    requires NamespacesOnce(tx) && WellFormed(tx)
    requires w in Writes(tx) && v in Writes(tx) && IsDelta(w) && !IsDelta(v)
    ensures w.key != v.key
  {
    WriteInSection(tx, w);
    WriteInSection(tx, v);
    var i :| 0 <= i < |tx| && w.key == Key(tx[i].ns, w.kv.key) && w.kv in tx[i].writes;
    var j :| 0 <= j < |tx| && v.key == Key(tx[j].ns, v.kv.key) && v.kv in tx[j].writes;
    assert WellFormedSection(tx[i].writes);
  }

  lemma Exclusive(tx: TxRwSet, k: Key)
    requires NamespacesOnce(tx) && WellFormed(tx) && HasDelta(Writes(tx), k)
    ensures FirstPlain(View(Writes(tx), k)).None?
  {
    ViewHasPlain(Writes(tx), k);
    PlainEffectSource(Writes(tx), k);
    var w :| w in Writes(tx) && Same(w.key, k) && IsDelta(w);
    forall v {:trigger v in Writes(tx)} | v in Writes(tx) && !IsDelta(v) ensures v.key != k {
      NoMix(tx, w, v);
    }
  }

  /** The running value is the stored integer whenever there is one, an absent key counting as 0. */
  ghost predicate Tracks(s: Store, k: Key, running: int64) {
    Current(s, k).Some? ==> Current(s, k).value == running
  }

  /** The entry that the state database itself would give: what is stored at k. */
  ghost function StoredModification(id: nat, s: Store, k: Key): KeyModification {
    KeyModification(id, Get(s, k), |Get(s, k)| == 0)
  }

  /**
   One VALID transaction: its entry is what the state then stores, byte for byte, exactly when the key's first and
   last plain writes leave the same, and then the running value keeps tracking the state.
   */
  lemma StepAgrees(cfg: Config, s: Store, tran: Tran, k: Key, running: int64)
    requires Accepts(cfg, s, tran.rwset) && NamespacesOnce(tran.rwset) && k in Touched(Writes(tran.rwset))
    requires Tracks(s, k, running)
    ensures |KeyWrites(tran.rwset, k)| > 0
    ensures
      var (mod, next) := Modification(tran.id, KeyWrites(tran.rwset, k), running);
      var t := ApplyTx(s, Writes(tran.rwset));
      && (mod == StoredModification(tran.id, t, k) <==> FirstIsLast(Writes(tran.rwset), k))
      && (FirstIsLast(Writes(tran.rwset), k) ==> Tracks(t, k, next))
  {
    var ws := Writes(tran.rwset);
    KeyWritesAreView(tran.rwset, k);
    ViewHasPlain(ws, k);
    if HasDelta(ws, k) {
      DeltaAgrees(cfg, s, tran, k, running);
    } else {
      PlainAgrees(s, tran, k, running);
    }
  }

  lemma DeltaAgrees(cfg: Config, s: Store, tran: Tran, k: Key, running: int64)
    requires Accepts(cfg, s, tran.rwset) && NamespacesOnce(tran.rwset) && HasDelta(Writes(tran.rwset), k)
    requires Tracks(s, k, running)
    requires |View(Writes(tran.rwset), k)| > 0
    ensures
      var (mod, next) := Modification(tran.id, View(Writes(tran.rwset), k), running);
      var t := ApplyTx(s, Writes(tran.rwset));
      && mod == StoredModification(tran.id, t, k) && Tracks(t, k, next)
      && FirstIsLast(Writes(tran.rwset), k)
  {
    hide Accepts, NamespacesOnce, WellFormed, HasDelta, View, DeltasOf, Foldable, Sum, Decodable, Writes, Encode, Decode, ApplyResult;
    var ws := Writes(tran.rwset);
    AcceptedDelta(cfg, s, tran.rwset, k);
    Exclusive(tran.rwset, k);
    DeltasOfSource(ws, k);
    FoldableMeans(DeltasOf(ws, k));
    ViewDeltas(ws, k);
    ApplyExact(running, DeltasOf(ws, k));
    assert Get(ApplyTx(s, ws), k) == NewValue(s, ws, k) == Encode(running + Sum(DeltasOf(ws, k)));
  }

  lemma PlainAgrees(s: Store, tran: Tran, k: Key, running: int64)
    requires !HasDelta(Writes(tran.rwset), k) && |View(Writes(tran.rwset), k)| > 0
    ensures
      var (mod, next) := Modification(tran.id, View(Writes(tran.rwset), k), running);
      var t := ApplyTx(s, Writes(tran.rwset));
      && (mod == StoredModification(tran.id, t, k) <==> FirstIsLast(Writes(tran.rwset), k))
      && (FirstIsLast(Writes(tran.rwset), k) ==> Tracks(t, k, next))
  {
    hide HasDelta, View, Writes;
    var ws := Writes(tran.rwset);
    ViewHasPlain(ws, k);
    assert Get(ApplyTx(s, ws), k) == NewValue(s, ws, k) == PlainEffect(ws, k).value;
  }

  /** An input on which they differ: of two different plain writes the state keeps the last and history reports the first. */
  lemma TwoPlainWritesDiverge(s: Store, id: nat, k: Key, a: Bytes, b: Bytes)
    requires |a| > 0 && |b| > 0 && a != b
    ensures var tx := [NsRwSet(k.ns, [KVWrite(k.key, a, false, None), KVWrite(k.key, b, false, None)])];
            && |KeyWrites(tx, k)| > 0 && Modification(id, KeyWrites(tx, k), 0).0.value == a
            && Get(ApplyTx(s, Writes(tx)), k) == b
  {
    var v, w := KVWrite(k.key, a, false, None), KVWrite(k.key, b, false, None);
    var tx := [NsRwSet(k.ns, [v, w])];
    var ws := Writes(tx);
    assert Writes(tx[1..]) == [];
    assert ws == [Write(k, v), Write(k, w)];
    assert ws[1..] == [Write(k, w)] && ws[1..][1..] == [];
    assert PlainEffect(ws[1..][1..], k) == None;
    assert PlainEffect(ws[1..], k) == Some(b);
    assert PlainEffect(ws, k) == Some(b);
    assert !HasDelta(ws, k);
    assert Write(k, v) in ws;
  }

  /** The transactions that the history index lists for k: VALID ones that write it, in commit order. */
  ghost function Index(cfg: Config, s: Store, trans: seq<Tran>, k: Key): seq<Tran>
    decreases |trans|
  {
    if |trans| == 0 then []
    else
      (if Accepts(cfg, s, trans[0].rwset) && k in Touched(Writes(trans[0].rwset)) then [trans[0]] else [])
      + Index(cfg, Step(cfg, s, trans[0].rwset), trans[1..], k)
  }

  /** The successive stored values of k, one per VALID transaction that writes it. */
  ghost function StoredValues(cfg: Config, s: Store, trans: seq<Tran>, k: Key): seq<KeyModification>
    decreases |trans|
  {
    if |trans| == 0 then []
    else
      var t := Step(cfg, s, trans[0].rwset);
      (if Accepts(cfg, s, trans[0].rwset) && k in Touched(Writes(trans[0].rwset)) then [StoredModification(trans[0].id, t, k)] else [])
      + StoredValues(cfg, t, trans[1..], k)
  }

  ghost function RwSets(trans: seq<Tran>): seq<TxRwSet> {
    seq(|trans|, i requires 0 <= i < |trans| => trans[i].rwset)
  }

  /** In every VALID transaction that writes k, the key's first and last plain writes leave the same. */
  ghost predicate AlwaysFirstIsLast(cfg: Config, s: Store, trans: seq<Tran>, k: Key)
    decreases |trans|
  {
    |trans| == 0
    || ((Accepts(cfg, s, trans[0].rwset) && k in Touched(Writes(trans[0].rwset)) ==> FirstIsLast(Writes(trans[0].rwset), k))
        && AlwaysFirstIsLast(cfg, Step(cfg, s, trans[0].rwset), trans[1..], k))
  }

  /** The entries of a whole run are the successive stored values if and only if that holds. */
  lemma {:induction false} HistoryFollowsState(cfg: Config, s: Store, trans: seq<Tran>, k: Key, running: int64)
    requires forall i :: 0 <= i < |trans| ==> NamespacesOnce(trans[i].rwset)
    requires Tracks(s, k, running)
    ensures FoldHistory(Index(cfg, s, trans, k), k, running).0 == StoredValues(cfg, s, trans, k)
            <==> AlwaysFirstIsLast(cfg, s, trans, k)
    ensures AlwaysFirstIsLast(cfg, s, trans, k) ==>
              Tracks(Run(cfg, s, RwSets(trans)), k, FoldHistory(Index(cfg, s, trans, k), k, running).1)
    decreases |trans|
  {
    hide Accepts, ApplyTx, Tracks, Modification, NamespacesOnce, KeyWrites, StoredModification, FirstIsLast;
    if |trans| > 0 {
      var t := Step(cfg, s, trans[0].rwset);
      assert RwSets(trans)[1..] == RwSets(trans[1..]);
      if Accepts(cfg, s, trans[0].rwset) && k in Touched(Writes(trans[0].rwset)) {
        StepAgrees(cfg, s, trans[0], k, running);
        var (mod, next) := Modification(trans[0].id, KeyWrites(trans[0].rwset, k), running);
        var later := Index(cfg, t, trans[1..], k);
        assert Index(cfg, s, trans, k) == [trans[0]] + later;
        assert Index(cfg, s, trans, k)[1..] == later;
        var stored := StoredValues(cfg, t, trans[1..], k);
        assert StoredValues(cfg, s, trans, k) == [StoredModification(trans[0].id, t, k)] + stored;
        HeadsAndTails(mod, FoldHistory(later, k, next).0, StoredModification(trans[0].id, t, k), stored);
        if FirstIsLast(Writes(trans[0].rwset), k) {
          HistoryFollowsState(cfg, t, trans[1..], k, next);
        }
      } else {
        UntouchedTracks(cfg, s, trans[0].rwset, k, running);
        HistoryFollowsState(cfg, t, trans[1..], k, running);
        assert Index(cfg, s, trans, k) == Index(cfg, t, trans[1..], k);
      }
    }
  }

  lemma HeadsAndTails<T>(x: T, xs: seq<T>, y: T, ys: seq<T>)
    ensures [x] + xs == [y] + ys <==> x == y && xs == ys
  {
    if [x] + xs == [y] + ys {
      assert x == ([x] + xs)[0] && y == ([y] + ys)[0];
      assert xs == ([x] + xs)[1..] && ys == ([y] + ys)[1..];
    }
  }

  lemma UntouchedTracks(cfg: Config, s: Store, tx: TxRwSet, k: Key, running: int64)
    requires !(Accepts(cfg, s, tx) && k in Touched(Writes(tx))) && Tracks(s, k, running)
    ensures Tracks(Step(cfg, s, tx), k, running)
  {
    hide Accepts;
    if Accepts(cfg, s, tx) {
      Untouched(s, Writes(tx), k);
    }
  }

  lemma {:induction false} RegularAlways(cfg: Config, s: Store, trans: seq<Tran>, k: Key)
    requires forall i :: 0 <= i < |trans| ==> Regular(trans[i].rwset)
    ensures AlwaysFirstIsLast(cfg, s, trans, k)
    decreases |trans|
  {
    hide Accepts, Step, Regular, FirstIsLast;
    if |trans| > 0 {
      RegularFirstIsLast(trans[0].rwset, k);
      RegularAlways(cfg, Step(cfg, s, trans[0].rwset), trans[1..], k);
    }
  }

  /**
   History agrees with state: from the empty ledger, the entries are exactly the successive stored values of the
   key, newest first, byte for byte, and the running value is the stored integer whenever there is one.
   */
  lemma HistoryAgreesWithState(cfg: Config, trans: seq<Tran>, k: Key)
    requires forall i :: 0 <= i < |trans| ==> Regular(trans[i].rwset)
    ensures Reversed(FoldHistory(Index(cfg, map[], trans, k), k, 0).0) == Reversed(StoredValues(cfg, map[], trans, k))
    ensures var final := Current(Run(cfg, map[], RwSets(trans)), k);
            final.Some? ==> FoldHistory(Index(cfg, map[], trans, k), k, 0).1 == final.value
  {
    hide Accepts, Index, StoredValues, FoldHistory, Run, RegularSection, NamespacesOnce;
    RegularAlways(cfg, map[], trans, k);
    HistoryFollowsState(cfg, map[], trans, k, 0);
  }
}
