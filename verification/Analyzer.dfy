/** The block-replay analyzer of analyzer/main.go, and why its balances are the ledger's. */
module Analyzer {
  import opened Prelude
  import opened Int64
  import opened TypedDelta
  import opened RwSet
  import opened Validation
  import opened Safety
  import opened History

  /** The command line: namespace, schema prefix to ignore, and the single key to follow (empty for all). */
  datatype Options = Options(ns: Bytes, schemaPrefix: Bytes, keyFilter: Bytes)

  predicate Tracked(o: Options, k: Key) {
    Same(k.ns, o.ns) && !(o.schemaPrefix <= k.key) && (|o.keyFilter| == 0 || Same(k.key, o.keyFilter))
  }

  datatype Replay = Replay(
    bal: map<Key, int64>, touched: set<Key>,
    deltaWrites: nat, plainWrites: nat, overflowEvents: nat, violationCommits: nat, validTx: nat, invalidTx: nat)

  const START: Replay := Replay(map[], {}, 0, 0, 0, 0, 0, 0)

  function Bal(r: Replay, k: Key): int64 {
    if k in r.bal then r.bal[k] else 0
  }

  /** The analyzer's own `addChecked`: on overflow it hands back the first operand. */
  function AddOrKeep(a: int64, b: int64): (r: (int64, bool))
    ensures r.1 <==> InRange(a + b)
    ensures r.0 == if r.1 then a + b else a
  {
    var s := Wrap(a + b);
    if (b > 0 && s < a) || (b < 0 && s > a) then (a, false) else (s, true)
  }

  /** `applyDelta`; the negation wraps as Go's does. */
  function SignedChange(d: Descriptor): (r: Option<int64>)
    ensures ToDelta(d).Ok? && ProperDelta(ToDelta(d).value) ==> r == Some(Amount(ToDelta(d).value))
    ensures r.Some? <==> |d.arg| == 8 && (d.op == ADD || d.op == SUB)
    ensures r.Some? ==> var v := Decode(d.arg).value; if d.op == ADD then r.value == v else r.value == if v == MIN_INT64 then v else -(v as int)
  {
    match Decode(d.arg)
    case None => None
    case Some(arg) =>
      match d.op
      case ADD => Some(arg)
      case SUB => Some(Wrap(-(arg as int)))
      case OtherOp(_) => None
  }

  /** One write of a VALID transaction. The delete flag is not looked at: a delete that carries eight bytes is a write. */
  function ReplayWrite(o: Options, r: Replay, w: Write): Replay {
    if !Tracked(o, w.key) then r
    else if w.kv.delta.Some? then
      var r' := r.(deltaWrites := r.deltaWrites + 1);
      match SignedChange(w.kv.delta.value)
      case None => r'
      case Some(change) =>
        var sum := AddOrKeep(Bal(r, w.key), change);
        if sum.1 then r'.(bal := r.bal[w.key := sum.0], touched := r.touched + {w.key})
        else r'.(overflowEvents := r.overflowEvents + 1)
    else if |w.kv.value| == INT64_WIDTH then
      r.(plainWrites := r.plainWrites + 1, bal := r.bal[w.key := Decode(w.kv.value).value], touched := r.touched + {w.key})
    else r
  }

  function ReplayWrites(o: Options, r: Replay, ws: seq<Write>): Replay
    decreases |ws|
  {
    if |ws| == 0 then r else ReplayWrites(o, ReplayWrite(o, r, ws[0]), ws[1..])
  }

  predicate Violated(r: Replay) {
    exists k :: k in r.touched && Bal(r, k) < 0
  }

  function ReplayTx(o: Options, r: Replay, valid: bool, tx: TxRwSet): Replay {
    if !valid then r.(invalidTx := r.invalidTx + 1)
    else
      var r' := ReplayWrites(o, r.(touched := {}, validTx := r.validTx + 1), Writes(tx));
      if Violated(r') then r'.(violationCommits := r'.violationCommits + 1) else r'
  }

  datatype FlaggedTx = FlaggedTx(valid: bool, rwset: TxRwSet)

  function ReplayStream(o: Options, r: Replay, txs: seq<FlaggedTx>): Replay
    decreases |txs|
  {
    if |txs| == 0 then r else ReplayStream(o, ReplayTx(o, r, txs[0].valid, txs[0].rwset), txs[1..])
  }

  // ---------- the loops ----------

  method AnalyzeWrites(o: Options, r0: Replay, tx: TxRwSet) returns (r: Replay)
    ensures r == ReplayWrites(o, r0, Writes(tx))
  {
    r := r0;
    assert tx[0..] == tx;
    for i := 0 to |tx|
      invariant ReplayWrites(o, r, Writes(tx[i..])) == ReplayWrites(o, r0, Writes(tx))
    {
      RestSection(tx, i);
      for j := 0 to |tx[i].writes|
        invariant ReplayWrites(o, r, Rest(tx, i, j)) == ReplayWrites(o, r0, Writes(tx))
      {
        RestStep(tx, i, j);
        assert Rest(tx, i, j)[1..] == Rest(tx, i, j + 1);
        r := ReplayWrite(o, r, Write(Key(tx[i].ns, tx[i].writes[j].key), tx[i].writes[j]));
      }
    }
  }

  method AnyNegative(r: Replay) returns (violated: bool)
    ensures violated <==> Violated(r)
  {
    violated := false;
    var remaining := r.touched;
    while remaining != {}
      invariant remaining <= r.touched
      invariant violated <==> exists k :: k in r.touched - remaining && Bal(r, k) < 0
      decreases remaining
    {
      var k :| k in remaining;
      if Bal(r, k) < 0 {
        violated := true;
      }
      remaining := remaining - {k};
    }
  }

  method AnalyzeBlocks(o: Options, blocks: seq<seq<FlaggedTx>>) returns (r: Replay)
    ensures r == ReplayStream(o, START, Flatten(blocks))
  {
    r := START;
    assert blocks[0..] == blocks;
    for b := 0 to |blocks|
      invariant ReplayStream(o, r, Flatten(blocks[b..])) == ReplayStream(o, START, Flatten(blocks))
    {
      ghost var later := Flatten(blocks[b + 1..]);
      assert blocks[b..][1..] == blocks[b + 1..];
      assert blocks[b][0..] == blocks[b];
      for i := 0 to |blocks[b]|
        invariant ReplayStream(o, r, blocks[b][i..] + later) == ReplayStream(o, START, Flatten(blocks))
      {
        assert (blocks[b][i..] + later)[1..] == blocks[b][i + 1..] + later;
        var tx := blocks[b][i];
        if !tx.valid {
          r := r.(invalidTx := r.invalidTx + 1);
          continue;
        }
        r := AnalyzeWrites(o, r.(touched := {}, validTx := r.validTx + 1), tx.rwset);
        var violated := AnyNegative(r);
        if violated {
          r := r.(violationCommits := r.violationCommits + 1);
        }
      }
      assert blocks[b][|blocks[b]|..] + later == later;
    }
  }

  // ---------- one transaction, key by key ----------

  lemma {:induction false} OverflowGrows(o: Options, r: Replay, ws: seq<Write>)
    ensures ReplayWrites(o, r, ws).overflowEvents >= r.overflowEvents
    decreases |ws|
  {
    if |ws| > 0 {
      OverflowGrows(o, ReplayWrite(o, r, ws[0]), ws[1..]);
    }
  }

  /** Writes to other keys leave k alone. */
  lemma {:induction false} ReplayElsewhere(o: Options, r: Replay, ws: seq<Write>, k: Key)
    requires |View(ws, k)| == 0 || !Tracked(o, k)
    ensures Bal(ReplayWrites(o, r, ws), k) == Bal(r, k)
    ensures k in ReplayWrites(o, r, ws).touched <==> k in r.touched
    decreases |ws|
  {
    if |ws| > 0 {
      ReplayElsewhere(o, ReplayWrite(o, r, ws[0]), ws[1..], k);
    }
  }

  /** Without overflow events, adding the deltas one at a time adds their sum. */
  lemma {:induction false} ReplayDeltas(o: Options, r: Replay, ws: seq<Write>, k: Key)
    requires Tracked(o, k) && Decodable(ws) && FirstPlain(View(ws, k)).None?
    requires forall d :: d in DeltasOf(ws, k) ==> ProperDelta(d)
    requires ReplayWrites(o, r, ws).overflowEvents == r.overflowEvents
    ensures Bal(ReplayWrites(o, r, ws), k) == Bal(r, k) + Sum(DeltasOf(ws, k))
    ensures k in ReplayWrites(o, r, ws).touched <==> k in r.touched || |View(ws, k)| > 0
    decreases |ws|
  {
    if |ws| > 0 {
      HeadOrTail(ws);
      var r' := ReplayWrite(o, r, ws[0]);
      OverflowGrows(o, r', ws[1..]);
      if ws[0].key == k {
        assert View(ws, k)[1..] == View(ws[1..], k);
        var d := ToDelta(ws[0].kv.delta.value).value;
        assert d in DeltasOf(ws, k);
        SumCons(d, DeltasOf(ws[1..], k));
      }
      ReplayDeltas(o, r', ws[1..], k);
    }
  }

  /** The one plain write to k decides, if it has eight bytes. */
  lemma {:induction false} ReplayPlain(o: Options, r: Replay, ws: seq<Write>, k: Key)
    requires Tracked(o, k) && OnePlain(View(ws, k)) && !HasDelta(ws, k) && FirstPlain(View(ws, k)).Some?
    ensures var b := FirstPlain(View(ws, k)).value.value;
            var r' := ReplayWrites(o, r, ws);
            if |b| == INT64_WIDTH then k in r'.touched && Bal(r', k) == Decode(b).value
            else Bal(r', k) == Bal(r, k) && (k in r'.touched <==> k in r.touched)
    decreases |ws|
  {
    HeadOrTail(ws);
    var r' := ReplayWrite(o, r, ws[0]);
    if ws[0].key == k {
      assert View(ws, k)[1..] == View(ws[1..], k);
      assert !IsDelta(ws[0]);
      NoOtherWrite(ws, k);
      ReplayElsewhere(o, r', ws[1..], k);
    } else {
      ReplayPlain(o, r', ws[1..], k);
    }
  }

  lemma NoOtherWrite(ws: seq<Write>, k: Key)
    requires |ws| > 0 && ws[0].key == k && !IsDelta(ws[0]) && !HasDelta(ws, k) && OnePlain(View(ws, k))
    ensures |View(ws[1..], k)| == 0
  {
    assert View(ws, k)[1..] == View(ws[1..], k);
    if |View(ws[1..], k)| > 0 {
      OnlyFirstPlain(View(ws, k));
      HeadOrTail(ws);
      ViewPlain(ws[1..], k);
    }
  }

  // ---------- agreement ----------

  /** The analyzer's balance of k is the stored integer, whenever what is stored is one; absent counts as 0. */
  ghost predicate Agrees(s: Store, r: Replay, k: Key) {
    Current(s, k).Some? ==> Current(s, k).value == Bal(r, k)
  }

  /** The replay, which knows no deletes, gets this one right: it carries the integer 0, or none and the balance is 0. */
  ghost predicate Harmless(r: Replay, w: Write) {
    if |w.kv.value| == INT64_WIDTH then Decode(w.kv.value).value == 0 else Bal(r, w.key) == 0
  }

  /** Every delete of a tracked key is harmless; r is the replay before the transaction. */
  ghost predicate DeletesHarmless(o: Options, r: Replay, ws: seq<Write>) {
    forall w {:trigger w in ws} :: w in ws && Tracked(o, w.key) && !IsDelta(w) && IsKVWriteDelete(w.kv) ==> Harmless(r, w)
  }

  /** After tx, k, which it wrote and which the options select, holds a negative integer. */
  ghost predicate LeavesNegative(o: Options, s: Store, ws: seq<Write>, k: Key) {
    && k.ns == o.ns && !(o.schemaPrefix <= k.key) && (o.keyFilter == [] || o.keyFilter == k.key)
    && k in Touched(ws) && Current(s, k).Some? && Current(s, k).value < 0
  }

  lemma NegativeMeans(o: Options, s: Store, ws: seq<Write>, k: Key)
    ensures LeavesNegative(o, s, ws, k) <==> Tracked(o, k) && k in Touched(ws) && Current(s, k).Some? && Current(s, k).value < 0
  {
    hide Touched, Current;
    TrackedMeans(o, k);
  }

  lemma TxAgrees(cfg: Config, o: Options, s: Store, r: Replay, tx: TxRwSet, k: Key)
    requires Accepts(cfg, s, tx) && Regular(tx) && DeletesHarmless(o, r, Writes(tx))
    requires Tracked(o, k) && Agrees(s, r, k) && k !in r.touched
    requires ReplayWrites(o, r, Writes(tx)).overflowEvents == r.overflowEvents
    ensures
      var t, r' := ApplyTx(s, Writes(tx)), ReplayWrites(o, r, Writes(tx));
      Agrees(t, r', k) && (k in r'.touched && Bal(r', k) < 0 <==> LeavesNegative(o, t, Writes(tx), k))
  {
    hide Accepts, LeavesNegative;
    var ws := Writes(tx);
    NegativeMeans(o, ApplyTx(s, ws), ws, k);
    KeyWritesAreView(tx, k);
    KeyWritesOnePlain(tx, k);
    ViewPlain(ws, k);
    if k !in Touched(ws) {
      Untouched(s, ws, k);
      ReplayElsewhere(o, r, ws, k);
    } else if HasDelta(ws, k) {
      TxAgreesOnDelta(cfg, o, s, r, tx, k);
    } else {
      TxAgreesOnPlain(o, s, r, tx, k);
      FirstIsPlain(ws, k);
    }
  }

  lemma TxAgreesOnDelta(cfg: Config, o: Options, s: Store, r: Replay, tx: TxRwSet, k: Key)
    requires Accepts(cfg, s, tx) && Regular(tx) && HasDelta(Writes(tx), k) && |View(Writes(tx), k)| > 0
    requires Tracked(o, k) && Agrees(s, r, k) && k in Touched(Writes(tx))
    requires ReplayWrites(o, r, Writes(tx)).overflowEvents == r.overflowEvents
    ensures
      var t, r' := ApplyTx(s, Writes(tx)), ReplayWrites(o, r, Writes(tx));
      Agrees(t, r', k) && k in r'.touched && Current(t, k).Some?
  {
    hide Accepts, NamespacesOnce, RegularSection, HasDelta, View, DeltasOf, Foldable, Sum, ReplayWrites, Tracked, Touched;
    var ws := Writes(tx);
    AcceptedDelta(cfg, s, tx, k);
    Exclusive(tx, k);
    FoldableMeans(DeltasOf(ws, k));
    ReplayDeltas(o, r, ws, k);
    assert Get(ApplyTx(s, ws), k) == NewValue(s, ws, k) == Encode(Current(s, k).value + Sum(DeltasOf(ws, k)));
  }

  /** After a plain write the two agree exactly unless it was a delete that is not harmless. */
  lemma TxAgreesOnPlain(o: Options, s: Store, r: Replay, tx: TxRwSet, k: Key)
    requires !HasDelta(Writes(tx), k) && OnePlain(View(Writes(tx), k)) && k in Touched(Writes(tx)) && Tracked(o, k)
    ensures
      var t, r' := ApplyTx(s, Writes(tx)), ReplayWrites(o, r, Writes(tx));
      var plain := FirstPlain(View(Writes(tx), k));
      && plain.Some?
      && (Agrees(t, r', k) <==> (IsKVWriteDelete(plain.value) ==> Harmless(r, Write(k, plain.value))))
      && (Agrees(t, r', k) && k !in r.touched ==> (k in r'.touched && Bal(r', k) < 0 <==> LeavesNegative(o, t, Writes(tx), k)))
  {
    hide HasDelta, View, ReplayWrites, Tracked, LeavesNegative;
    var ws := Writes(tx);
    NegativeMeans(o, ApplyTx(s, ws), ws, k);
    ViewPlain(ws, k);
    ReplayPlain(o, r, ws, k);
    assert Get(ApplyTx(s, ws), k) == NewValue(s, ws, k) == WrittenValue(FirstPlain(View(ws, k)).value);
  }

  /** With one plain write to a key, that write is the first. */
  lemma {:induction false} PlainIsFirst(ws: seq<Write>, w: Write)
    requires OnePlain(View(ws, w.key)) && w in ws && !IsDelta(w)
    ensures FirstPlain(View(ws, w.key)) == Some(w.kv)
  {
    HeadOrTail(ws);
    if ws[0].key == w.key {
      assert View(ws, w.key)[1..] == View(ws[1..], w.key);
      if ws[0] != w {
        PlainIsFirst(ws[1..], w);
        if !IsDelta(ws[0]) {
          OnlyFirstPlain(View(ws, w.key));
          assert false;
        }
      }
    } else {
      PlainIsFirst(ws[1..], w);
    }
  }

  lemma {:induction false} FirstIsPlain(ws: seq<Write>, k: Key)
    requires FirstPlain(View(ws, k)).Some?
    ensures Write(k, FirstPlain(View(ws, k)).value) in ws && !IsDelta(Write(k, FirstPlain(View(ws, k)).value))
  {
    HeadOrTail(ws);
    if ws[0].key == k {
      assert View(ws, k)[1..] == View(ws[1..], k);
    }
    if !(ws[0].key == k && !IsDelta(ws[0])) {
      FirstIsPlain(ws[1..], k);
    } else {
      assert ws[0] == Write(k, ws[0].kv);
    }
  }

  /**
   What a delete does to the agreement, in every transaction: the state forgets the key, the replay takes the
   delete's eight bytes for an absolute write or ignores it. So they agree on the key exactly when the delete
   carries the integer 0, or carries no integer and the balance was already 0.
   */
  lemma DeleteAgreesExactly(o: Options, s: Store, r: Replay, tx: TxRwSet, w: Write)
    requires Regular(tx) && w in Writes(tx) && !IsDelta(w) && IsKVWriteDelete(w.kv)
    requires Tracked(o, w.key) && !HasDelta(Writes(tx), w.key)
    ensures Agrees(ApplyTx(s, Writes(tx)), ReplayWrites(o, r, Writes(tx)), w.key)
            <==> if |w.kv.value| == INT64_WIDTH then Decode(w.kv.value).value == 0 else Bal(r, w.key) == 0
  {
    hide HasDelta, ReplayWrites, Tracked, NamespacesOnce, RegularSection, Agrees;
    KeyWritesAreView(tx, w.key);
    KeyWritesOnePlain(tx, w.key);
    PlainIsFirst(Writes(tx), w);
    TxAgreesOnPlain(o, s, r, tx, w.key);
  }

  // ---------- overflow events ----------

  /** Adding the deltas one at a time to b never leaves int64. */
  ghost predicate Stays(b: int, ds: seq<Delta>)
    decreases |ds|
  {
    |ds| == 0 || (InRange(b + Amount(ds[0])) && Stays(b + Amount(ds[0]), ds[1..]))
  }

  lemma {:induction false} StaysMeans(b: int, ds: seq<Delta>)
    ensures Stays(b, ds) <==> forall j :: 0 < j <= |ds| ==> InRange(b + Sum(ds[..j]))
    decreases |ds|
  {
    hide Sum, Amount;
    if |ds| > 0 {
      var b', rest := b + Amount(ds[0]), ds[1..];
      StaysMeans(b', rest);
      PrefixSum(ds, 1);
      NoSum(rest[..0]);
      if Stays(b, ds) {
        forall j | 0 < j <= |ds| ensures InRange(b + Sum(ds[..j])) {
          PrefixSum(ds, j);
        }
      }
      if forall j :: 0 < j <= |ds| ==> InRange(b + Sum(ds[..j])) {
        assert InRange(b + Sum(ds[..1]));
        forall i | 0 < i <= |rest| ensures InRange(b' + Sum(rest[..i])) {
          PrefixSum(ds, i + 1);
          assert InRange(b + Sum(ds[..i + 1]));
        }
      }
    }
  }

  lemma PrefixSum(ds: seq<Delta>, j: nat)
    requires 0 < j <= |ds|
    ensures Sum(ds[..j]) == Amount(ds[0]) + Sum(ds[1..][..j - 1])
  {
    SumCons(ds[0], ds[1..][..j - 1]);
    assert ds[..j] == [ds[0]] + ds[1..][..j - 1];
  }

  lemma NoSum(ds: seq<Delta>)
    requires |ds| == 0
    ensures Sum(ds) == 0
  {
  }

  /** Proper deltas only, and no key with both kinds of write. */
  ghost predicate Orderly(ws: seq<Write>) {
    && (forall w {:trigger w in ws} :: w in ws && IsDelta(w) ==> ToDelta(w.kv.delta.value).Ok? && ProperDelta(ToDelta(w.kv.delta.value).value))
    && (forall w, v {:trigger w in ws, v in ws} :: w in ws && v in ws && IsDelta(w) && !IsDelta(v) ==> w.key != v.key)
  }

  ghost predicate StaysFor(o: Options, r: Replay, ws: seq<Write>, k: Key) {
    Tracked(o, k) ==> Stays(Bal(r, k), DeltasOf(ws, k))
  }

  lemma StaysStep(o: Options, r: Replay, ws: seq<Write>, k: Key)
    requires |ws| > 0 && Orderly(ws)
    requires ReplayWrite(o, r, ws[0]).overflowEvents == r.overflowEvents
    ensures StaysFor(o, r, ws, k) <==> StaysFor(o, ReplayWrite(o, r, ws[0]), ws[1..], k)
  {
    HeadOrTail(ws);
    if ws[0].key == k && !IsDelta(ws[0]) {
      assert !HasDelta(ws[1..], k);
      DeltasOfSource(ws[1..], k);
    } else if ws[0].key == k {
      assert DeltasOf(ws, k)[1..] == DeltasOf(ws[1..], k);
    }
  }

  /** The replay of a transaction has no overflow event exactly when no partial sum of a tracked key leaves int64. */
  lemma {:induction false} OverflowExactly(o: Options, r: Replay, ws: seq<Write>)
    requires Orderly(ws)
    ensures ReplayWrites(o, r, ws).overflowEvents == r.overflowEvents <==> forall k :: StaysFor(o, r, ws, k)
    decreases |ws|
  {
    if |ws| == 0 {
      forall k ensures StaysFor(o, r, ws, k) {
      }
    } else {
      HeadOrTail(ws);
      var r' := ReplayWrite(o, r, ws[0]);
      OverflowGrows(o, r', ws[1..]);
      OverflowExactly(o, r', ws[1..]);
      if r'.overflowEvents == r.overflowEvents {
        forall k ensures StaysFor(o, r, ws, k) <==> StaysFor(o, r', ws[1..], k) {
          StaysStep(o, r, ws, k);
        }
      } else {
        assert !StaysFor(o, r, ws, ws[0].key);
      }
    }
  }

  /** In the ledger's own terms: adding the deltas one at a time to what is stored never leaves int64. */
  ghost predicate SumsStay(o: Options, s: Store, ws: seq<Write>) {
    forall k :: Tracked(o, k) && HasDelta(ws, k) ==> Current(s, k).Some? && Stays(Current(s, k).value, DeltasOf(ws, k))
  }

  lemma {:induction false} DeltaIsListed(ws: seq<Write>, w: Write)
    requires w in ws && IsDelta(w) && ToDelta(w.kv.delta.value).Ok?
    ensures ToDelta(w.kv.delta.value).value in DeltasOf(ws, w.key)
  {
    HeadOrTail(ws);
    if ws[0] != w {
      DeltaIsListed(ws[1..], w);
    }
  }

  lemma AcceptedIsOrderly(cfg: Config, s: Store, tx: TxRwSet)
    requires Accepts(cfg, s, tx) && Regular(tx)
    ensures Orderly(Writes(tx))
  {
    hide Accepts, NamespacesOnce, RegularSection, DeltasOf;
    var ws := Writes(tx);
    forall w {:trigger w in ws} | w in ws && IsDelta(w)
      ensures ToDelta(w.kv.delta.value).Ok? && ProperDelta(ToDelta(w.kv.delta.value).value) && WellFormed(tx)
    {
      AcceptedDelta(cfg, s, tx, w.key);
      FoldableMeans(DeltasOf(ws, w.key));
      DeltaIsListed(ws, w);
    }
    forall w, v {:trigger w in ws, v in ws} | w in ws && v in ws && IsDelta(w) && !IsDelta(v) ensures w.key != v.key {
      NoMix(tx, w, v);
    }
  }

  /** A VALID transaction causes no overflow event exactly when its one-at-a-time sums stay in range. */
  lemma TxOverflowExactly(cfg: Config, o: Options, s: Store, r: Replay, tx: TxRwSet)
    requires Accepts(cfg, s, tx) && Regular(tx) && AllAgree(o, s, r)
    ensures ReplayWrites(o, r, Writes(tx)).overflowEvents == r.overflowEvents <==> SumsStay(o, s, Writes(tx))
  {
    hide Accepts, Regular, Tracked, ReplayWrites, Stays, HasDelta, DeltasOf, Current;
    var ws := Writes(tx);
    AcceptedIsOrderly(cfg, s, tx);
    OverflowExactly(o, r, ws);
    forall k ensures StaysFor(o, r, ws, k) <==> (Tracked(o, k) && HasDelta(ws, k) ==> Current(s, k).Some? && Stays(Current(s, k).value, DeltasOf(ws, k))) {
      if Tracked(o, k) && HasDelta(ws, k) {
        AcceptedDelta(cfg, s, tx, k);
        assert Agrees(s, r, k);
      } else if Tracked(o, k) {
        DeltasOfSource(ws, k);
        NothingStays(Bal(r, k), DeltasOf(ws, k));
      }
    }
  }

  lemma NothingStays(b: int, ds: seq<Delta>)
    requires |ds| == 0
    ensures Stays(b, ds)
  {
  }

  lemma {:induction false} TouchedIsTracked(o: Options, r: Replay, ws: seq<Write>)
    requires forall k :: k in r.touched ==> Tracked(o, k)
    ensures forall k :: k in ReplayWrites(o, r, ws).touched ==> Tracked(o, k)
    decreases |ws|
  {
    if |ws| > 0 {
      TouchedIsTracked(o, ReplayWrite(o, r, ws[0]), ws[1..]);
    }
  }

  // ---------- runs ----------

  /** The stream as the ledger flags it: each transaction with its verdict. */
  ghost function Flagged(cfg: Config, s: Store, txs: seq<TxRwSet>): (flagged: seq<FlaggedTx>)
    ensures |flagged| == |txs|
    decreases |txs|
  {
    if |txs| == 0 then []
    else [FlaggedTx(Accepts(cfg, s, txs[0]), txs[0])] + Flagged(cfg, Step(cfg, s, txs[0]), txs[1..])
  }

  /** What a VALID transaction must satisfy for the replay to follow it. */
  ghost predicate TxSound(o: Options, s: Store, r: Replay, ws: seq<Write>) {
    SumsStay(o, s, ws) && DeletesHarmless(o, r, ws)
  }

  ghost predicate Sound(cfg: Config, o: Options, s: Store, r: Replay, txs: seq<TxRwSet>)
    decreases |txs|
  {
    |txs| == 0
    || ((Accepts(cfg, s, txs[0]) ==> TxSound(o, s, r, Writes(txs[0])))
        && Sound(cfg, o, Step(cfg, s, txs[0]), ReplayTx(o, r, Accepts(cfg, s, txs[0]), txs[0]), txs[1..]))
  }

  /** How many VALID transactions leave a tracked key they wrote with a negative integer. */
  ghost function Violations(cfg: Config, o: Options, s: Store, txs: seq<TxRwSet>): nat
    decreases |txs|
  {
    if |txs| == 0 then 0
    else
      var t := Step(cfg, s, txs[0]);
      (if Accepts(cfg, s, txs[0]) && exists k :: LeavesNegative(o, t, Writes(txs[0]), k) then 1 else 0)
      + Violations(cfg, o, t, txs[1..])
  }

  ghost predicate AllAgree(o: Options, s: Store, r: Replay) {
    forall k :: Tracked(o, k) ==> Agrees(s, r, k)
  }

  lemma ReplayTxAgrees(cfg: Config, o: Options, s: Store, r: Replay, tx: TxRwSet)
    requires Regular(tx) && AllAgree(o, s, r) && (Accepts(cfg, s, tx) ==> TxSound(o, s, r, Writes(tx)))
    ensures ReplayTx(o, r, Accepts(cfg, s, tx), tx).overflowEvents == r.overflowEvents
    ensures AllAgree(o, Step(cfg, s, tx), ReplayTx(o, r, Accepts(cfg, s, tx), tx))
    ensures ReplayTx(o, r, Accepts(cfg, s, tx), tx).violationCommits ==
            r.violationCommits
            + if Accepts(cfg, s, tx) && exists k :: LeavesNegative(o, Step(cfg, s, tx), Writes(tx), k) then 1 else 0
  {
    hide Accepts, Regular, SumsStay, Tracked, ApplyTx, Agrees, LeavesNegative, Writes, ReplayWrites;
    if Accepts(cfg, s, tx) {
      var ws := Writes(tx);
      var r0 := r.(touched := {}, validTx := r.validTx + 1);
      forall k ensures Agrees(s, r, k) <==> Agrees(s, r0, k) {
        SameBalances(s, r, r0, k);
      }
      TxOverflowExactly(cfg, o, s, r0, tx);
      var r1 := ReplayWrites(o, r0, ws);
      CountersKept(o, r0, ws);
      forall k | Tracked(o, k)
        ensures Agrees(ApplyTx(s, ws), r1, k)
        ensures k in r1.touched && Bal(r1, k) < 0 <==> LeavesNegative(o, ApplyTx(s, ws), ws, k)
      {
        TxAgrees(cfg, o, s, r0, tx, k);
      }
      TouchedIsTracked(o, r0, ws);
      forall k ensures LeavesNegative(o, ApplyTx(s, ws), ws, k) ==> Tracked(o, k) {
        NegativeIsTracked(o, ApplyTx(s, ws), ws, k);
      }
      forall k ensures Agrees(ApplyTx(s, ws), r1, k) <==> Agrees(ApplyTx(s, ws), r1.(violationCommits := r1.violationCommits + 1), k) {
        SameBalances(ApplyTx(s, ws), r1, r1.(violationCommits := r1.violationCommits + 1), k);
      }
    } else {
      forall k ensures Agrees(s, r, k) <==> Agrees(s, r.(invalidTx := r.invalidTx + 1), k) {
        SameBalances(s, r, r.(invalidTx := r.invalidTx + 1), k);
      }
    }
  }

  lemma SameBalances(s: Store, r: Replay, r': Replay, k: Key)
    requires r.bal == r'.bal
    ensures Agrees(s, r, k) <==> Agrees(s, r', k)
  {
  }

  lemma NegativeIsTracked(o: Options, s: Store, ws: seq<Write>, k: Key)
    ensures LeavesNegative(o, s, ws, k) ==> Tracked(o, k)
  {
  }

  lemma {:induction false} CountersKept(o: Options, r: Replay, ws: seq<Write>)
    ensures ReplayWrites(o, r, ws).violationCommits == r.violationCommits
    decreases |ws|
  {
    if |ws| > 0 {
      CountersKept(o, ReplayWrite(o, r, ws[0]), ws[1..]);
    }
  }

  lemma {:induction false} StreamOverflowGrows(o: Options, r: Replay, txs: seq<FlaggedTx>)
    ensures ReplayStream(o, r, txs).overflowEvents >= r.overflowEvents
    decreases |txs|
  {
    hide ReplayWrites, Violated;
    if |txs| > 0 {
      OverflowGrows(o, r.(touched := {}, validTx := r.validTx + 1), Writes(txs[0].rwset));
      StreamOverflowGrows(o, ReplayTx(o, r, txs[0].valid, txs[0].rwset), txs[1..]);
    }
  }

  /**
   The analyzer's replay refines the ledger: over sound runs there is no overflow event, its balances are the
   stored integers, and it counts exactly the VALID transactions that leave a tracked key negative.
   */
  lemma {:induction false} ReplayRefinesLedger(cfg: Config, o: Options, s: Store, txs: seq<TxRwSet>, r: Replay)
    requires forall i :: 0 <= i < |txs| ==> Regular(txs[i])
    requires Sound(cfg, o, s, r, txs) && AllAgree(o, s, r)
    ensures ReplayStream(o, r, Flagged(cfg, s, txs)).overflowEvents == r.overflowEvents
    ensures AllAgree(o, Run(cfg, s, txs), ReplayStream(o, r, Flagged(cfg, s, txs)))
    ensures ReplayStream(o, r, Flagged(cfg, s, txs)).violationCommits == r.violationCommits + Violations(cfg, o, s, txs)
    decreases |txs|
  {
    hide Accepts, Step, Regular, AllAgree, ReplayTx, TxSound, LeavesNegative;
    if |txs| > 0 {
      var t := Step(cfg, s, txs[0]);
      var r' := ReplayTx(o, r, Accepts(cfg, s, txs[0]), txs[0]);
      assert Flagged(cfg, s, txs)[1..] == Flagged(cfg, t, txs[1..]);
      ReplayTxAgrees(cfg, o, s, r, txs[0]);
      ReplayRefinesLedger(cfg, o, t, txs[1..], r');
    }
  }

  lemma TxOverflowGrows(o: Options, r: Replay, valid: bool, tx: TxRwSet)
    ensures ReplayTx(o, r, valid, tx).overflowEvents >= r.overflowEvents
  {
    hide ReplayWrites;
    OverflowGrows(o, r.(touched := {}, validTx := r.validTx + 1), Writes(tx));
  }

  lemma {:induction false} FlaggedPrefix(cfg: Config, s: Store, txs: seq<TxRwSet>, n: nat)
    requires n <= |txs|
    ensures Flagged(cfg, s, txs)[..n] == Flagged(cfg, s, txs[..n])
    decreases |txs|
  {
    hide Step, Accepts;
    if |txs| > 0 {
      var t := Step(cfg, s, txs[0]);
      FlaggedPrefix(cfg, t, txs[1..], if n == 0 then 0 else n - 1);
      if n > 0 {
        assert txs[..n][1..] == txs[1..][..n - 1];
      }
    }
  }

  lemma {:induction false} SoundPrefix(cfg: Config, o: Options, s: Store, r: Replay, txs: seq<TxRwSet>, n: nat)
    requires n <= |txs| && Sound(cfg, o, s, r, txs)
    ensures Sound(cfg, o, s, r, txs[..n])
    decreases |txs|
  {
    hide Step, Accepts, TxSound, ReplayTx;
    if n > 0 {
      SoundPrefix(cfg, o, Step(cfg, s, txs[0]), ReplayTx(o, r, Accepts(cfg, s, txs[0]), txs[0]), txs[1..], n - 1);
      assert txs[..n][1..] == txs[1..][..n - 1];
    }
  }

  /** After the first n transactions the balances are the stored integers. */
  ghost predicate AgreeAt(cfg: Config, o: Options, s: Store, r: Replay, txs: seq<TxRwSet>, n: nat)
    requires n <= |txs|
  {
    AllAgree(o, Run(cfg, s, txs[..n]), ReplayStream(o, r, Flagged(cfg, s, txs)[..n]))
  }

  /** The key selection of the command line. */
  lemma TrackedMeans(o: Options, k: Key)
    ensures Tracked(o, k) <==> k.ns == o.ns && !(o.schemaPrefix <= k.key) && (o.keyFilter == [] || o.keyFilter == k.key)
  {
  }

  /**
   From the empty ledger, after every transaction of a sound run: every key of the namespace that has not the schema
   prefix and passes the filter has the balance that is stored, every other key has none, and the violation count
   is the number of VALID transactions that left such a key negative.
   */
  lemma AnalyzerFollowsLedger(cfg: Config, o: Options, txs: seq<TxRwSet>, n: nat)
    requires n <= |txs| && forall i :: 0 <= i < |txs| ==> Regular(txs[i])
    requires Sound(cfg, o, map[], START, txs)
    ensures
      var s, r := Run(cfg, map[], txs[..n]), ReplayStream(o, START, Flagged(cfg, map[], txs)[..n]);
      && (forall k: Key :: k.ns == o.ns && !(o.schemaPrefix <= k.key) && (o.keyFilter == [] || o.keyFilter == k.key) && Current(s, k).Some?
                      ==> Bal(r, k) == Current(s, k).value)
      && (forall k :: k in r.bal ==> k.ns == o.ns && !(o.schemaPrefix <= k.key) && (o.keyFilter == [] || o.keyFilter == k.key))
      && r.violationCommits == Violations(cfg, o, map[], txs[..n])
      && r.overflowEvents == 0
  {
    hide Flagged, ReplayStream, Regular, Run, Violations, Sound, Current, Bal;
    FlaggedPrefix(cfg, map[], txs, n);
    SoundPrefix(cfg, o, map[], START, txs, n);
    EmptyAgrees(o);
    ReplayRefinesLedger(cfg, o, map[], txs[..n], START);
    BalancesAreTracked(o, START, Flagged(cfg, map[], txs[..n]));
    hide Tracked, AllAgree;
    forall k: Key ensures Tracked(o, k) <==> k.ns == o.ns && !(o.schemaPrefix <= k.key) && (o.keyFilter == [] || o.keyFilter == k.key) {
      TrackedMeans(o, k);
    }
    var s, r := Run(cfg, map[], txs[..n]), ReplayStream(o, START, Flagged(cfg, map[], txs[..n]));
    forall k | Tracked(o, k) && Current(s, k).Some? ensures Bal(r, k) == Current(s, k).value {
      AgreesMeans(o, s, r, k);
    }
  }

  lemma AgreesMeans(o: Options, s: Store, r: Replay, k: Key)
    requires AllAgree(o, s, r) && Tracked(o, k) && Current(s, k).Some?
    ensures Bal(r, k) == Current(s, k).value
  {
    hide Tracked, Current, Bal;
    assert Agrees(s, r, k);
  }

  lemma {:induction false} BalancesAreTracked(o: Options, r: Replay, txs: seq<FlaggedTx>)
    requires forall k :: k in r.bal ==> Tracked(o, k)
    ensures forall k :: k in ReplayStream(o, r, txs).bal ==> Tracked(o, k)
    decreases |txs|
  {
    hide Tracked, ReplayWrites, Violated;
    if |txs| > 0 {
      WritesKeepTracked(o, r.(touched := {}, validTx := r.validTx + 1), Writes(txs[0].rwset));
      BalancesAreTracked(o, ReplayTx(o, r, txs[0].valid, txs[0].rwset), txs[1..]);
    }
  }

  lemma {:induction false} WritesKeepTracked(o: Options, r: Replay, ws: seq<Write>)
    requires forall k :: k in r.bal ==> Tracked(o, k)
    ensures forall k :: k in ReplayWrites(o, r, ws).bal ==> Tracked(o, k)
    decreases |ws|
  {
    hide Tracked;
    if |ws| > 0 {
      WritesKeepTracked(o, ReplayWrite(o, r, ws[0]), ws[1..]);
    }
  }

  // ---------- the counters ----------

  /** How many writes are deltas, or plain with eight bytes, and go to a key that the options select. */
  ghost function CountWrites(o: Options, ws: seq<Write>, deltas: bool): nat {
    if |ws| == 0 then 0
    else
      var k := ws[0].key;
      (if && k.ns == o.ns && !(o.schemaPrefix <= k.key) && (o.keyFilter == [] || o.keyFilter == k.key)
          && (if deltas then IsDelta(ws[0]) else !IsDelta(ws[0]) && |ws[0].kv.value| == 8)
       then 1 else 0)
      + CountWrites(o, ws[1..], deltas)
  }

  /** The same over the VALID transactions of a run. */
  ghost function CountRun(cfg: Config, o: Options, s: Store, txs: seq<TxRwSet>, deltas: bool): nat
    decreases |txs|
  {
    if |txs| == 0 then 0
    else
      (if Accepts(cfg, s, txs[0]) then CountWrites(o, Writes(txs[0]), deltas) else 0)
      + CountRun(cfg, o, Step(cfg, s, txs[0]), txs[1..], deltas)
  }

  ghost function CountCodes(codes: seq<Code>, c: Code): nat {
    if |codes| == 0 then 0 else (if codes[0] == c then 1 else 0) + CountCodes(codes[1..], c)
  }

  lemma {:induction false} WritesCounted(o: Options, r: Replay, ws: seq<Write>)
    ensures var r' := ReplayWrites(o, r, ws);
            && r'.deltaWrites == r.deltaWrites + CountWrites(o, ws, true)
            && r'.plainWrites == r.plainWrites + CountWrites(o, ws, false)
            && r'.validTx == r.validTx && r'.invalidTx == r.invalidTx
    decreases |ws|
  {
    hide SignedChange, AddOrKeep;
    if |ws| > 0 {
      WritesCounted(o, ReplayWrite(o, r, ws[0]), ws[1..]);
    }
  }

  /** In every run, sound or not: verdicts, delta writes and plain writes are counted exactly. */
  lemma {:induction false} CountersExact(cfg: Config, o: Options, s: Store, txs: seq<TxRwSet>, r: Replay)
    ensures var r' := ReplayStream(o, r, Flagged(cfg, s, txs));
            && r'.validTx == r.validTx + CountCodes(Verdicts(cfg, s, txs), VALID)
            && r'.invalidTx == r.invalidTx + CountCodes(Verdicts(cfg, s, txs), INVALID_OTHER_REASON)
            && r'.deltaWrites == r.deltaWrites + CountRun(cfg, o, s, txs, true)
            && r'.plainWrites == r.plainWrites + CountRun(cfg, o, s, txs, false)
    decreases |txs|
  {
    hide Accepts, Step, ReplayWrites, CountWrites, Violated;
    if |txs| > 0 {
      var t := Step(cfg, s, txs[0]);
      var valid := Accepts(cfg, s, txs[0]);
      var r' := ReplayTx(o, r, valid, txs[0]);
      assert Flagged(cfg, s, txs)[1..] == Flagged(cfg, t, txs[1..]);
      assert Verdicts(cfg, s, txs)[1..] == Verdicts(cfg, t, txs[1..]);
      if valid {
        WritesCounted(o, r.(touched := {}, validTx := r.validTx + 1), Writes(txs[0]));
      }
      CountersExact(cfg, o, t, txs[1..], r');
    }
  }

  lemma DeletesMustBeHarmless(cfg: Config, o: Options, s: Store, r: Replay, tx: TxRwSet)
    requires Accepts(cfg, s, tx) && Regular(tx)
    requires AllAgree(o, ApplyTx(s, Writes(tx)), ReplayWrites(o, r, Writes(tx)))
    ensures DeletesHarmless(o, r, Writes(tx))
  {
    hide Accepts, Regular, ReplayWrites, Tracked, ApplyTx, Agrees;
    var ws := Writes(tx);
    AcceptedIsOrderly(cfg, s, tx);
    forall w {:trigger w in ws} | w in ws && Tracked(o, w.key) && !IsDelta(w) && IsKVWriteDelete(w.kv) ensures Harmless(r, w) {
      assert !HasDelta(ws, w.key);
      DeleteAgreesExactly(o, s, r, tx, w);
    }
  }

  /** One transaction without overflow event that leaves all balances in agreement was sound. */
  lemma TxMustBeSound(cfg: Config, o: Options, s: Store, r: Replay, tx: TxRwSet)
    requires Regular(tx) && AllAgree(o, s, r) && Accepts(cfg, s, tx)
    requires ReplayTx(o, r, true, tx).overflowEvents == r.overflowEvents
    requires AllAgree(o, Step(cfg, s, tx), ReplayTx(o, r, true, tx))
    ensures TxSound(o, s, r, Writes(tx))
  {
    hide Accepts, Regular, Tracked, ApplyTx, Agrees, Writes, ReplayWrites, SumsStay;
    var ws := Writes(tx);
    var r0 := r.(touched := {}, validTx := r.validTx + 1);
    var r1 := ReplayWrites(o, r0, ws);
    forall k ensures Agrees(s, r, k) <==> Agrees(s, r0, k) {
      SameBalances(s, r, r0, k);
    }
    forall k ensures Agrees(ApplyTx(s, ws), r1, k) <==> Agrees(ApplyTx(s, ws), ReplayTx(o, r, true, tx), k) {
      SameBalances(ApplyTx(s, ws), r1, ReplayTx(o, r, true, tx), k);
    }
    TxOverflowExactly(cfg, o, s, r0, tx);
    DeletesMustBeHarmless(cfg, o, s, r0, tx);
  }

  lemma {:induction false} AgreementNeedsSound(cfg: Config, o: Options, s: Store, r: Replay, txs: seq<TxRwSet>)
    requires forall i :: 0 <= i < |txs| ==> Regular(txs[i])
    requires ReplayStream(o, r, Flagged(cfg, s, txs)).overflowEvents == r.overflowEvents
    requires forall n :: 0 <= n <= |txs| ==> AgreeAt(cfg, o, s, r, txs, n)
    ensures Sound(cfg, o, s, r, txs)
    decreases |txs|
  {
    hide Accepts, Step, Regular, AllAgree, ReplayTx, TxSound;
    if |txs| > 0 {
      var t := Step(cfg, s, txs[0]);
      var r' := ReplayTx(o, r, Accepts(cfg, s, txs[0]), txs[0]);
      assert Flagged(cfg, s, txs)[1..] == Flagged(cfg, t, txs[1..]);
      StreamOverflowGrows(o, r', Flagged(cfg, t, txs[1..]));
      TxOverflowGrows(o, r, Accepts(cfg, s, txs[0]), txs[0]);
      AgreeTail(cfg, o, s, r, txs);
      assert AgreeAt(cfg, o, s, r, txs, 0) && AgreeAt(cfg, o, t, r', txs[1..], 0);
      if Accepts(cfg, s, txs[0]) {
        TxMustBeSound(cfg, o, s, r, txs[0]);
      }
      AgreementNeedsSound(cfg, o, t, r', txs[1..]);
    }
  }

  lemma AgreeTail(cfg: Config, o: Options, s: Store, r: Replay, txs: seq<TxRwSet>)
    requires |txs| > 0 && forall n :: 0 <= n <= |txs| ==> AgreeAt(cfg, o, s, r, txs, n)
    ensures var t, r' := Step(cfg, s, txs[0]), ReplayTx(o, r, Accepts(cfg, s, txs[0]), txs[0]);
            forall n :: 0 <= n <= |txs| - 1 ==> AgreeAt(cfg, o, t, r', txs[1..], n)
  {
    hide Accepts, Step, AllAgree, ReplayTx;
    var t, r' := Step(cfg, s, txs[0]), ReplayTx(o, r, Accepts(cfg, s, txs[0]), txs[0]);
    var all := Flagged(cfg, s, txs);
    forall n | 0 <= n <= |txs| - 1 ensures AgreeAt(cfg, o, t, r', txs[1..], n) {
      assert AgreeAt(cfg, o, s, r, txs, n + 1);
      assert txs[..n + 1][1..] == txs[1..][..n];
      assert all[..n + 1][1..] == Flagged(cfg, t, txs[1..])[..n];
    }
  }

  lemma AgreeAtPrefix(cfg: Config, o: Options, txs: seq<TxRwSet>, n: nat)
    requires n <= |txs| && forall i :: 0 <= i < |txs| ==> Regular(txs[i])
    requires Sound(cfg, o, map[], START, txs)
    ensures AgreeAt(cfg, o, map[], START, txs, n)
  {
    hide Flagged, ReplayStream, Regular, Run, Sound;
    FlaggedPrefix(cfg, map[], txs, n);
    SoundPrefix(cfg, o, map[], START, txs, n);
    EmptyAgrees(o);
    ReplayRefinesLedger(cfg, o, map[], txs[..n], START);
  }

  /**
   Exactly when the analyzer follows the ledger: it counts no overflow event and agrees with the state after every
   transaction if and only if, in every VALID transaction, the one-at-a-time sums of tracked keys stay in int64 and
   deletes of tracked keys are harmless.
   */
  lemma AnalyzerExactly(cfg: Config, o: Options, txs: seq<TxRwSet>)
    requires forall i :: 0 <= i < |txs| ==> Regular(txs[i])
    ensures Sound(cfg, o, map[], START, txs)
            <==> && ReplayStream(o, START, Flagged(cfg, map[], txs)).overflowEvents == 0
                 && forall n :: 0 <= n <= |txs| ==> AgreeAt(cfg, o, map[], START, txs, n)
  {
    hide Flagged, ReplayStream, Regular, Sound, AgreeAt;
    if Sound(cfg, o, map[], START, txs) {
      EmptyAgrees(o);
      ReplayRefinesLedger(cfg, o, map[], txs, START);
      forall n | 0 <= n <= |txs| ensures AgreeAt(cfg, o, map[], START, txs, n) {
        AgreeAtPrefix(cfg, o, txs, n);
      }
    } else if ReplayStream(o, START, Flagged(cfg, map[], txs)).overflowEvents == 0
              && forall n :: 0 <= n <= |txs| ==> AgreeAt(cfg, o, map[], START, txs, n) {
      AgreementNeedsSound(cfg, o, map[], START, txs);
    }
  }

  /** No VALID transaction deletes a tracked key. */
  ghost predicate NoTrackedDeletes(cfg: Config, o: Options, s: Store, txs: seq<TxRwSet>)
    decreases |txs|
  {
    |txs| == 0
    || ((Accepts(cfg, s, txs[0]) ==> NoDeletes(o, Writes(txs[0]))) && NoTrackedDeletes(cfg, o, Step(cfg, s, txs[0]), txs[1..]))
  }

  ghost predicate NoDeletes(o: Options, ws: seq<Write>) {
    forall w {:trigger w in ws} :: w in ws && Tracked(o, w.key) && !IsDelta(w) ==> !IsKVWriteDelete(w.kv)
  }

  /** In particular, runs without tracked deletes and without overflow events are sound. */
  lemma {:induction false} SoundWithoutDeletes(cfg: Config, o: Options, s: Store, r: Replay, txs: seq<TxRwSet>)
    requires forall i :: 0 <= i < |txs| ==> Regular(txs[i])
    requires NoTrackedDeletes(cfg, o, s, txs) && AllAgree(o, s, r)
    requires ReplayStream(o, r, Flagged(cfg, s, txs)).overflowEvents == r.overflowEvents
    ensures Sound(cfg, o, s, r, txs)
    decreases |txs|
  {
    hide Accepts, Step, Regular, AllAgree, ReplayTx, TxSound, NoDeletes;
    if |txs| > 0 {
      var t := Step(cfg, s, txs[0]);
      var r' := ReplayTx(o, r, Accepts(cfg, s, txs[0]), txs[0]);
      assert Flagged(cfg, s, txs)[1..] == Flagged(cfg, t, txs[1..]);
      StreamOverflowGrows(o, r', Flagged(cfg, t, txs[1..]));
      TxOverflowGrows(o, r, Accepts(cfg, s, txs[0]), txs[0]);
      if Accepts(cfg, s, txs[0]) {
        TxSoundWithoutDeletes(cfg, o, s, r, txs[0]);
      }
      ReplayTxAgrees(cfg, o, s, r, txs[0]);
      SoundWithoutDeletes(cfg, o, t, r', txs[1..]);
    }
  }

  lemma TxSoundWithoutDeletes(cfg: Config, o: Options, s: Store, r: Replay, tx: TxRwSet)
    requires Regular(tx) && AllAgree(o, s, r) && Accepts(cfg, s, tx) && NoDeletes(o, Writes(tx))
    requires ReplayTx(o, r, true, tx).overflowEvents == r.overflowEvents
    ensures TxSound(o, s, r, Writes(tx))
  {
    hide Accepts, Regular, Tracked, Agrees, Writes, ReplayWrites, SumsStay;
    var r0 := r.(touched := {}, validTx := r.validTx + 1);
    forall k ensures Agrees(s, r, k) <==> Agrees(s, r0, k) {
      SameBalances(s, r, r0, k);
    }
    TxOverflowExactly(cfg, o, s, r0, tx);
  }

  lemma EmptyAgrees(o: Options)
    ensures AllAgree(o, map[], START)
  {
  }

  /** Every VALID write to a tracked key happens under a NONNEG schema. */
  ghost predicate NonNegGoverned(cfg: Config, o: Options, s: Store, txs: seq<TxRwSet>)
    decreases |txs|
  {
    |txs| == 0
    || (&& (Accepts(cfg, s, txs[0]) ==> forall k :: k in Touched(Writes(txs[0])) && Tracked(o, k) ==> InvariantFor(cfg, s, k) == Some(NonNeg))
        && NonNegGoverned(cfg, o, Step(cfg, s, txs[0]), txs[1..]))
  }

  lemma NonNegStep(cfg: Config, o: Options, s: Store, tx: TxRwSet, k: Key)
    requires Accepts(cfg, s, tx) && k in Touched(Writes(tx)) && InvariantFor(cfg, s, k) == Some(NonNeg)
    ensures !LeavesNegative(o, ApplyTx(s, Writes(tx)), Writes(tx), k)
  {
    assert Governed(cfg, s, k);
    assert TypedAccepts(cfg, s, tx);
    if HasDelta(Writes(tx), k) {
      DeltaLeavesSafe(cfg, s, tx, k);
    } else {
      PlainLeavesSafe(cfg, s, tx, k);
    }
  }

  /** Under NONNEG schemas no prefix is negative, so the analyzer counts 0 violations. */
  lemma {:induction false} NoViolations(cfg: Config, o: Options, s: Store, txs: seq<TxRwSet>)
    requires NonNegGoverned(cfg, o, s, txs)
    ensures Violations(cfg, o, s, txs) == 0
    decreases |txs|
  {
    hide Accepts, ApplyTx, InvariantFor;
    if |txs| > 0 {
      NoViolations(cfg, o, Step(cfg, s, txs[0]), txs[1..]);
      if Accepts(cfg, s, txs[0]) {
        forall k ensures !LeavesNegative(o, ApplyTx(s, Writes(txs[0])), Writes(txs[0]), k) {
          if k in Touched(Writes(txs[0])) && Tracked(o, k) {
            NonNegStep(cfg, o, s, txs[0], k);
          }
        }
      }
    }
  }
}
