/**
 Reads and deltas in one run: the version check and the RevealDebit transaction of chaincode/typed-delta-cc.go.
 Every write, materialised deltas included, gives its key the height of the writing transaction.
 */
module MixedRuns {
  import opened Prelude
  import opened Int64
  import opened SchemaKey
  import opened RwSet
  import opened Validation

  datatype Height = Height(blk: nat, tx: nat)

  predicate Before(a: Height, b: Height) {
    a.blk < b.blk || (a.blk == b.blk && a.tx < b.tx)
  }

  datatype Ledger = Ledger(store: Store, versions: map<Key, Height>)

  /** A transaction with the versions it read, None for an absent key. */
  datatype MixedTx = MixedTx(readSet: map<Key, Option<Height>>, rwset: TxRwSet)

  ghost function VersionOf(v: Ledger, k: Key): Option<Height> {
    if k in v.versions then Some(v.versions[k]) else None
  }

  /** The version check: every read still sees the version that was read. */
  ghost predicate ReadsCurrent(v: Ledger, readSet: map<Key, Option<Height>>) {
    forall k :: k in readSet ==> VersionOf(v, k) == readSet[k]
  }

  ghost predicate IsValid(cfg: Config, v: Ledger, tx: MixedTx) {
    ReadsCurrent(v, tx.readSet) && Accepts(cfg, v.store, tx.rwset)
  }

  ghost function Commit(v: Ledger, ws: seq<Write>, h: Height): Ledger {
    var store := ApplyTx(v.store, ws);
    Ledger(store, map k | k in store :: if k in Touched(ws) || k !in v.versions then h else v.versions[k])
  }

  ghost function StepAt(cfg: Config, v: Ledger, tx: MixedTx, h: Height): Ledger {
    if IsValid(cfg, v, tx) then Commit(v, Writes(tx.rwset), h) else v
  }

  ghost function RunMixed(cfg: Config, v: Ledger, txs: seq<MixedTx>, hs: seq<Height>): Ledger
    requires |txs| == |hs|
    decreases |txs|
  {
    if |txs| == 0 then v else RunMixed(cfg, StepAt(cfg, v, txs[0], hs[0]), txs[1..], hs[1..])
  }

  /** Stored keys, and only those, have a version. */
  ghost predicate Consistent(v: Ledger) {
    && Normal(v.store)
    && v.versions.Keys == v.store.Keys
  }

  ghost predicate Ascending(hs: seq<Height>) {
    forall i, j :: 0 <= i < j < |hs| ==> Before(hs[i], hs[j])
  }

  /** Every version of v is older than h. */
  ghost predicate OlderThan(v: Ledger, h: Height) {
    forall k :: k in v.versions ==> Before(v.versions[k], h)
  }

  /** Since `base`, k is either as it was, version and value, or has a version that is not older than h. */
  ghost predicate SameOrNewer(base: Ledger, v: Ledger, k: Key, h: Height) {
    if k in v.versions
    then (k in base.versions && v.versions[k] == base.versions[k] && Get(v.store, k) == Get(base.store, k))
         || !Before(v.versions[k], h)
    else |Get(v.store, k)| == 0
  }

  lemma CommitConsistent(v: Ledger, ws: seq<Write>, h: Height)
    ensures Consistent(Commit(v, ws, h))
  {
  }

  lemma StepSameOrNewer(cfg: Config, base: Ledger, v: Ledger, tx: MixedTx, h: Height, at: Height, k: Key)
    requires Consistent(v) && SameOrNewer(base, v, k, h) && !Before(at, h)
    ensures Consistent(StepAt(cfg, v, tx, at)) && SameOrNewer(base, StepAt(cfg, v, tx, at), k, h)
  {
    hide Accepts;
    if IsValid(cfg, v, tx) {
      var ws := Writes(tx.rwset);
      CommitConsistent(v, ws, at);
      if k !in Touched(ws) {
        Untouched(v.store, ws, k);
      }
    }
  }

  lemma {:induction false} RunSameOrNewer(cfg: Config, base: Ledger, v: Ledger, txs: seq<MixedTx>, hs: seq<Height>, h: Height, k: Key)
    requires |txs| == |hs| && Consistent(v) && SameOrNewer(base, v, k, h)
    requires forall i :: 0 <= i < |hs| ==> !Before(hs[i], h)
    ensures SameOrNewer(base, RunMixed(cfg, v, txs, hs), k, h)
    decreases |txs|
  {
    hide StepAt, SameOrNewer, Consistent;
    if |txs| > 0 {
      StepSameOrNewer(cfg, base, v, txs[0], h, hs[0], k);
      RunSameOrNewer(cfg, base, StepAt(cfg, v, txs[0], hs[0]), txs[1..], hs[1..], h, k);
    }
  }

  lemma {:induction false} RunKeeps(cfg: Config, v: Ledger, txs: seq<MixedTx>, hs: seq<Height>, h: Height)
    requires |txs| == |hs| && Consistent(v) && OlderThan(v, h)
    requires forall i :: 0 <= i < |hs| ==> Before(hs[i], h)
    ensures Consistent(RunMixed(cfg, v, txs, hs)) && OlderThan(RunMixed(cfg, v, txs, hs), h)
    decreases |txs|
  {
    hide Accepts;
    if |txs| > 0 {
      CommitConsistent(v, Writes(txs[0].rwset), hs[0]);
      RunKeeps(cfg, StepAt(cfg, v, txs[0], hs[0]), txs[1..], hs[1..], h);
    }
  }

  lemma {:induction false} MixedConcat(cfg: Config, v: Ledger, txs: seq<MixedTx>, hs: seq<Height>, j: nat)
    requires |txs| == |hs| && j <= |txs|
    ensures RunMixed(cfg, v, txs, hs) == RunMixed(cfg, RunMixed(cfg, v, txs[..j], hs[..j]), txs[j..], hs[j..])
    decreases |txs|
  {
    hide StepAt;
    if j > 0 {
      MixedConcat(cfg, StepAt(cfg, v, txs[0], hs[0]), txs[1..], hs[1..], j - 1);
      assert txs[..j][1..] == txs[1..][..j - 1] && hs[..j][1..] == hs[1..][..j - 1];
      assert txs[1..][j - 1..] == txs[j..] && hs[1..][j - 1..] == hs[j..];
    } else {
      assert txs[0..] == txs && hs[0..] == hs;
    }
  }

  /**
   If a key has the same version at two points of a run, or none at both, it has the same bytes: every write,
   and every materialised delta, changes the version.
   */
  lemma VersionDeterminesValue(cfg: Config, v: Ledger, txs: seq<MixedTx>, hs: seq<Height>, j: nat, k: Key)
    requires |txs| < |hs| && j <= |txs| && Ascending(hs) && Consistent(v) && OlderThan(v, hs[0])
    ensures
      var earlier := RunMixed(cfg, v, txs[..j], hs[..j]);
      var now := RunMixed(cfg, v, txs, hs[..|txs|]);
      VersionOf(earlier, k) == VersionOf(now, k) ==> Get(earlier.store, k) == Get(now.store, k)
  {
    hide StepAt;
    var hs' := hs[..|txs|];
    var earlier := RunMixed(cfg, v, txs[..j], hs[..j]);
    assert hs'[..j] == hs[..j];
    MixedConcat(cfg, v, txs, hs', j);
    assert forall k :: k in v.versions ==> Before(v.versions[k], hs[j]) by {
      assert j > 0 ==> Before(hs[0], hs[j]);
    }
    RunKeeps(cfg, v, txs[..j], hs[..j], hs[j]);
    assert SameOrNewer(earlier, earlier, k, hs[j]);
    RunSameOrNewer(cfg, earlier, earlier, txs[j..], hs'[j..], hs[j], k);
  }

  // ---------- RevealDebit ----------

  /** The transaction that RevealDebit(k, n) produces when it is endorsed against v; None where the chaincode errs. */
  function RevealDebit(v: Ledger, k: Key, n: int64): Option<MixedTx> {
    if |k.key| == 0 || ReservedKey(k.key) || n < 0 then None
    else if k !in v.store || k !in v.versions then None
    else
      match Decode(v.store[k])
      case None => None
      case Some(bal) =>
        if bal < n then None
        else Some(MixedTx(map[k := Some(v.versions[k])], [NsRwSet(k.ns, [KVWrite(k.key, Encode(bal - n), false, None)])]))
  }

  /** Exactly when RevealDebit endorses, and with what: the version it read and the balance it read minus n. */
  lemma RevealDebitExactly(v: Ledger, k: Key, n: int64)
    requires Consistent(v)
    ensures RevealDebit(v, k, n).Some? <==>
              && |k.key| > 0 && !ReservedKey(k.key) && n >= 0 && k in v.store
              && Decode(v.store[k]).Some? && Decode(v.store[k]).value >= n
    ensures RevealDebit(v, k, n).Some? ==>
              var tx := RevealDebit(v, k, n).value;
              && tx.readSet == map[k := VersionOf(v, k)]
              && tx.rwset == [NsRwSet(k.ns, [KVWrite(k.key, Encode(Decode(v.store[k]).value - n), false, None)])]
  {
    hide Decode, Encode, ReservedKey;
  }

  lemma DebitEffect(s: Store, k: Key, b: Bytes)
    requires |b| > 0
    ensures var ws := Writes([NsRwSet(k.ns, [KVWrite(k.key, b, false, None)])]);
            Get(ApplyTx(s, ws), k) == b
  {
    var tx := [NsRwSet(k.ns, [KVWrite(k.key, b, false, None)])];
    var w := Write(k, KVWrite(k.key, b, false, None));
    assert tx[1..] == [];
    assert Writes(tx) == SectionWrites(tx[0]) == [w];
    assert [w][1..] == [];
    assert !HasDelta([w], k);
    assert PlainEffect([w], k) == Some(b);
  }

  /**
   No lost updates: a RevealDebit endorsed anywhere earlier in a run, and interleaved with any deltas and writes,
   is VALID only if it stores exactly what is there at commit minus n, and that is not negative.
   */
  lemma NoLostUpdate(cfg: Config, v: Ledger, txs: seq<MixedTx>, hs: seq<Height>, j: nat, k: Key, n: int64)
    requires |txs| < |hs| && j <= |txs| && Ascending(hs) && Consistent(v) && OlderThan(v, hs[0])
    requires RevealDebit(RunMixed(cfg, v, txs[..j], hs[..j]), k, n).Some?
    ensures
      var tx := RevealDebit(RunMixed(cfg, v, txs[..j], hs[..j]), k, n).value;
      var now := RunMixed(cfg, v, txs, hs[..|txs|]);
      var after := StepAt(cfg, now, tx, hs[|txs|]);
      IsValid(cfg, now, tx) ==>
        && Current(now.store, k).Some? && Current(after.store, k).Some?
        && Current(after.store, k).value == Current(now.store, k).value - n
        && Current(after.store, k).value >= 0
  {
    hide Accepts;
    var tx := RevealDebit(RunMixed(cfg, v, txs[..j], hs[..j]), k, n).value;
    var now := RunMixed(cfg, v, txs, hs[..|txs|]);
    if IsValid(cfg, now, tx) {
      assert k in tx.readSet;
      VersionDeterminesValue(cfg, v, txs, hs, j, k);
      DebitEffect(now.store, k, tx.rwset[0].writes[0].value);
    }
  }
}
