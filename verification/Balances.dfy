/** Sums of balances over runs of delta transactions: conservation and reordering. */
module Balances {
  import opened Prelude
  import opened Int64
  import opened TypedDelta
  import opened RwSet
  import opened Validation

  /** The balance at k as an integer; bytes that do not decode count as 0. */
  ghost function Balance(s: Store, k: Key): int {
    if Current(s, k).Some? then Current(s, k).value else 0
  }

  ghost function Total(s: Store, accounts: seq<Key>): int {
    if |accounts| == 0 then 0 else Balance(s, accounts[0]) + Total(s, accounts[1..])
  }

  ghost predicate DeltaOnly(ws: seq<Write>) {
    forall w {:trigger w in ws} :: w in ws ==> IsDelta(w)
  }

  /** What a write adds to the account it addresses. */
  ghost function WriteAmount(w: Write): int {
    if IsDelta(w) && ToDelta(w.kv.delta.value).Ok? then Amount(ToDelta(w.kv.delta.value).value) else 0
  }

  /** Credits minus debits of all writes together. */
  ghost function NetAll(ws: seq<Write>): int {
    if |ws| == 0 then 0 else WriteAmount(ws[0]) + NetAll(ws[1..])
  }

  /** Credits minus debits that the writes address to k. */
  ghost function Net(ws: seq<Write>, k: Key): int {
    Sum(DeltasOf(ws, k))
  }

  lemma NetCons(ws: seq<Write>, k: Key)
    requires |ws| > 0
    ensures Net(ws, k) == (if ws[0].key == k then WriteAmount(ws[0]) else 0) + Net(ws[1..], k)
  {
    if ws[0].key == k && IsDelta(ws[0]) && ToDelta(ws[0].kv.delta.value).Ok? {
      SumCons(ToDelta(ws[0].kv.delta.value).value, DeltasOf(ws[1..], k));
    }
  }

  // ---------- one transaction ----------

  /** An accepted delta-only transaction adds to each account exactly what it addresses to it. */
  lemma BalanceStep(cfg: Config, s: Store, tx: TxRwSet, k: Key)
    requires DeltaOnly(Writes(tx)) && Accepts(cfg, s, tx)
    ensures Balance(ApplyTx(s, Writes(tx)), k) == Balance(s, k) + Net(Writes(tx), k)
  {
    var ws := Writes(tx);
    assert Get(ApplyTx(s, ws), k) == NewValue(s, ws, k);
    if HasDelta(ws, k) {
      DeltaAdds(cfg, s, tx, k);
    } else {
      NoDeltaNoChange(s, ws, k);
    }
  }

  lemma DeltaAdds(cfg: Config, s: Store, tx: TxRwSet, k: Key)
    requires Accepts(cfg, s, tx) && HasDelta(Writes(tx), k)
    ensures Current(s, k).Some? && InRange(Balance(s, k) + Net(Writes(tx), k))
    ensures NewValue(s, Writes(tx), k) == Encode(Balance(s, k) + Net(Writes(tx), k))
  {
    hide Accepts, WellFormed, Decodable, HasDelta, DeltasOf, Foldable, Sum, Encode;
    AcceptedDelta(cfg, s, tx, k);
  }

  lemma DeltaLeaves(cfg: Config, s: Store, tx: TxRwSet, k: Key)
    requires Accepts(cfg, s, tx) && HasDelta(Writes(tx), k)
    ensures Current(s, k).Some?
    ensures Current(ApplyTx(s, Writes(tx)), k) == Some(Current(s, k).value + Net(Writes(tx), k))
  {
    hide Accepts, HasDelta, Net, NewValue, Decode;
    DeltaAdds(cfg, s, tx, k);
    assert Get(ApplyTx(s, Writes(tx)), k) == NewValue(s, Writes(tx), k);
  }

  lemma NoDeltaNoChange(s: Store, ws: seq<Write>, k: Key)
    requires DeltaOnly(ws) && !HasDelta(ws, k)
    ensures NewValue(s, ws, k) == Get(s, k) && Net(ws, k) == 0
  {
    DeltasOfSource(ws, k);
    PlainEffectSource(ws, k);
  }

  /** What the writes add to a list of accounts. */
  ghost function NetOver(ws: seq<Write>, accounts: seq<Key>): int {
    if |accounts| == 0 then 0 else Net(ws, accounts[0]) + NetOver(ws, accounts[1..])
  }

  lemma {:induction false} NetOverCons(ws: seq<Write>, accounts: seq<Key>)
    requires |ws| > 0 && Distinct(accounts)
    ensures NetOver(ws, accounts) == (if ws[0].key in accounts then WriteAmount(ws[0]) else 0) + NetOver(ws[1..], accounts)
  {
    hide Net, WriteAmount;
    if |accounts| > 0 {
      NetCons(ws, accounts[0]);
      NetOverCons(ws, accounts[1..]);
      assert ws[0].key in accounts <==> ws[0].key == accounts[0] || ws[0].key in accounts[1..];
      assert accounts[0] !in accounts[1..];
    }
  }

  /** Accounts that cover the transaction receive all it moves. */
  lemma {:induction false} NetOverAll(ws: seq<Write>, accounts: seq<Key>)
    requires Distinct(accounts) && forall w {:trigger w in ws} :: w in ws ==> w.key in accounts
    ensures NetOver(ws, accounts) == NetAll(ws)
  {
    hide WriteAmount, Net;
    if |ws| == 0 {
      NetOverNothing(ws, accounts);
    } else {
      HeadOrTail(ws);
      NetOverCons(ws, accounts);
      NetOverAll(ws[1..], accounts);
    }
  }

  lemma {:induction false} NetOverNothing(ws: seq<Write>, accounts: seq<Key>)
    requires |ws| == 0
    ensures NetOver(ws, accounts) == 0
  {
    if |accounts| > 0 {
      NetOverNothing(ws, accounts[1..]);
    }
  }

  lemma {:induction false} TotalStep(cfg: Config, s: Store, tx: TxRwSet, accounts: seq<Key>)
    requires DeltaOnly(Writes(tx)) && Accepts(cfg, s, tx)
    ensures Total(ApplyTx(s, Writes(tx)), accounts) == Total(s, accounts) + NetOver(Writes(tx), accounts)
  {
    hide Accepts, ApplyTx, Balance, Net;
    if |accounts| > 0 {
      BalanceStep(cfg, s, tx, accounts[0]);
      TotalStep(cfg, s, tx, accounts[1..]);
    }
  }

  // ---------- conservation ----------

  ghost predicate Covers(accounts: seq<Key>, txs: seq<TxRwSet>) {
    forall i, w :: 0 <= i < |txs| && w in Writes(txs[i]) ==> w.key in accounts
  }

  ghost predicate AllDeltaOnly(txs: seq<TxRwSet>) {
    forall i :: 0 <= i < |txs| ==> DeltaOnly(Writes(txs[i]))
  }

  /** Credits minus debits of the transactions that the run accepts. */
  ghost function AcceptedNet(cfg: Config, s: Store, txs: seq<TxRwSet>): int
    decreases |txs|
  {
    if |txs| == 0 then 0
    else (if Accepts(cfg, s, txs[0]) then NetAll(Writes(txs[0])) else 0) + AcceptedNet(cfg, Step(cfg, s, txs[0]), txs[1..])
  }

  lemma StepTotal(cfg: Config, s: Store, tx: TxRwSet, accounts: seq<Key>)
    requires DeltaOnly(Writes(tx)) && Distinct(accounts)
    requires forall w {:trigger w in Writes(tx)} :: w in Writes(tx) ==> w.key in accounts
    ensures Total(Step(cfg, s, tx), accounts) == Total(s, accounts) + if Accepts(cfg, s, tx) then NetAll(Writes(tx)) else 0
  {
    hide Accepts, ApplyTx, DeltaOnly;
    if Accepts(cfg, s, tx) {
      TotalStep(cfg, s, tx, accounts);
      NetOverAll(Writes(tx), accounts);
    }
  }

  /**
   Conservation: over any run of delta transactions, the sum over accounts that cover them changes by exactly the
   accepted credits minus the accepted debits.
   */
  lemma {:induction false} Conservation(cfg: Config, s: Store, txs: seq<TxRwSet>, accounts: seq<Key>)
    requires AllDeltaOnly(txs) && Distinct(accounts) && Covers(accounts, txs)
    ensures Total(Run(cfg, s, txs), accounts) == Total(s, accounts) + AcceptedNet(cfg, s, txs)
    decreases |txs|
  {
    hide Step, Accepts, Distinct, DeltaOnly;
    if |txs| > 0 {
      StepTotal(cfg, s, txs[0], accounts);
      Conservation(cfg, Step(cfg, s, txs[0]), txs[1..], accounts);
    }
  }

  // ---------- reordering ----------

  ghost predicate AllAccepted(cfg: Config, s: Store, txs: seq<TxRwSet>)
    decreases |txs|
  {
    |txs| == 0 || (Accepts(cfg, s, txs[0]) && AllAccepted(cfg, Step(cfg, s, txs[0]), txs[1..]))
  }

  ghost function RunNet(txs: seq<TxRwSet>, k: Key): int {
    if |txs| == 0 then 0 else Net(Writes(txs[0]), k) + RunNet(txs[1..], k)
  }

  ghost predicate AnyDelta(txs: seq<TxRwSet>, k: Key) {
    exists tx :: tx in txs && HasDelta(Writes(tx), k)
  }

  /** Where an entirely accepted run leaves k: the canonical encoding of the start plus everything moved. */
  lemma {:induction false} AcceptedRunValue(cfg: Config, s: Store, txs: seq<TxRwSet>, k: Key)
    requires AllDeltaOnly(txs) && AllAccepted(cfg, s, txs)
    ensures Balance(Run(cfg, s, txs), k) == Balance(s, k) + RunNet(txs, k)
    ensures AnyDelta(txs, k) ==> Get(Run(cfg, s, txs), k) == Encode(Balance(Run(cfg, s, txs), k))
    ensures !AnyDelta(txs, k) ==> Get(Run(cfg, s, txs), k) == Get(s, k)
    decreases |txs|
  {
    hide Accepts, Balance, Net, HasDelta, ApplyTx;
    if |txs| > 0 {
      var t := ApplyTx(s, Writes(txs[0]));
      AcceptedStepValue(cfg, s, txs[0], k);
      AcceptedRunValue(cfg, t, txs[1..], k);
      SameBalance(t, Run(cfg, t, txs[1..]), k);
      assert forall tx :: tx in txs <==> tx == txs[0] || tx in txs[1..];
    }
  }

  lemma SameBalance(s: Store, t: Store, k: Key)
    ensures Get(s, k) == Get(t, k) ==> Balance(s, k) == Balance(t, k)
  {
  }

  lemma AcceptedStepValue(cfg: Config, s: Store, tx: TxRwSet, k: Key)
    requires DeltaOnly(Writes(tx)) && Accepts(cfg, s, tx)
    ensures Balance(ApplyTx(s, Writes(tx)), k) == Balance(s, k) + Net(Writes(tx), k)
    ensures HasDelta(Writes(tx), k) ==> Get(ApplyTx(s, Writes(tx)), k) == Encode(Balance(ApplyTx(s, Writes(tx)), k))
    ensures !HasDelta(Writes(tx), k) ==> Get(ApplyTx(s, Writes(tx)), k) == Get(s, k)
  {
    hide Accepts, Net, HasDelta;
    BalanceStep(cfg, s, tx, k);
    if HasDelta(Writes(tx), k) {
      DeltaAdds(cfg, s, tx, k);
    } else {
      NoDeltaNoChange(s, Writes(tx), k);
    }
  }

  lemma {:induction false} RunNetConcat(a: seq<TxRwSet>, b: seq<TxRwSet>, k: Key)
    ensures RunNet(a + b, k) == RunNet(a, k) + RunNet(b, k)
  {
    hide Net;
    if |a| == 0 {
      assert a + b == b;
    } else {
      RunNetConcat(a[1..], b, k);
      assert (a + b)[1..] == a[1..] + b;
    }
  }

  lemma {:induction false} RunNetPermuted(a: seq<TxRwSet>, b: seq<TxRwSet>, k: Key)
    requires multiset(a) == multiset(b)
    ensures RunNet(a, k) == RunNet(b, k)
    decreases |a|
  {
    hide Net;
    if |a| == 0 {
      assert |multiset(b)| == 0;
    } else {
      var i := TakeOut(a, b);
      var rest := b[..i] + b[i + 1..];
      RunNetPermuted(a[1..], rest, k);
      RunNetConcat(b[..i], b[i + 1..], k);
      RunNetConcat(b[..i], [b[i]] + b[i + 1..], k);
      assert b[..i] + ([b[i]] + b[i + 1..]) == b;
      assert ([b[i]] + b[i + 1..])[1..] == b[i + 1..];
    }
  }

  /**
   Reordering: two orders of the same delta transactions that are both accepted throughout end in the same store,
   byte for byte.
   */
  lemma Reordering(cfg: Config, s: Store, a: seq<TxRwSet>, b: seq<TxRwSet>)
    requires Normal(s) && multiset(a) == multiset(b) && AllDeltaOnly(a)
    requires AllAccepted(cfg, s, a) && AllAccepted(cfg, s, b)
    ensures Run(cfg, s, a) == Run(cfg, s, b)
  {
    hide AllAccepted, Run, DeltaOnly, HasDelta, Balance;
    forall tx ensures tx in a <==> tx in b {
      SameElements(a, b, tx);
    }
    assert AllDeltaOnly(b) by {
      forall i | 0 <= i < |b| ensures DeltaOnly(Writes(b[i])) {
        assert b[i] in a;
      }
    }
    RunNormal(cfg, s, a);
    RunNormal(cfg, s, b);
    forall k ensures Get(Run(cfg, s, a), k) == Get(Run(cfg, s, b), k) {
      AcceptedRunValue(cfg, s, a, k);
      AcceptedRunValue(cfg, s, b, k);
      RunNetPermuted(a, b, k);
    }
    StoreExtensional(Run(cfg, s, a), Run(cfg, s, b));
  }
}
