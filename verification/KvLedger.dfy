/** The ledger object of fabric-core/kv_ledger.go; every method is proved against the state machine of Recovery. */
module KvLedger {
  import opened Prelude
  import opened RwSet
  import opened Validation
  import opened Recovery
  import opened Hooks

  datatype StoreOutcome = Stored | PvtRefused | AddBlockError | Died

  /** How the commit of a block goes: the process dies after so many store writes (four complete it), or AddBlock reports an error. */
  datatype Fate = Dies(writes: nat) | AddBlockErrs

  class KvLedger {
    const su: Setup
    var blocks: seq<Block>
    var pvtLog: seq<nat>
    var state: StateDb
    var history: HistoryDb
    var open: bool
    var isPvtstoreAheadOfBlkstore: bool

    ghost function View(): Node
      reads this
    {
      Node(blocks, pvtLog, state, history, open, isPvtstoreAheadOfBlkstore)
    }

    constructor (su: Setup)
      ensures this.su == su && View() == EMPTY
    {
      this.su := su;
      blocks, pvtLog, state, history := [], [], StateDb(map[], 0, []), HistoryDb(0, []);
      open, isPvtstoreAheadOfBlkstore := true, false;
    }

    method IsPvtDataStoreAheadOfBlockStore() returns (ahead: bool)
      ensures ahead <==> PvtHeight(View()) > |blocks|
    {
      ahead := |pvtLog| > |blocks|;
    }

    // ---------- recovery ----------

    /** `CommitLostBlock` of one of the two recoverables. */
    method CommitLostBlock(toState: bool, num: nat)
      requires Valid(su, View()) && !open && num == HeightOf(View(), Op(toState, num)) < |blocks|
      modifies this`state, this`history
      ensures View() == ExecOp(old(View()), Op(toState, num))
    {
      hide Run, ReplayFlags, GoodChain, StoreAfter, Verdicts;
      if toState {
        ChainAt(su.cfg, map[], blocks, num);
        ReplayIsRun(su.cfg, state.store, blocks[num].txs);
        var s := ReplayBlock(state.store, blocks[num]);
        state := StateDb(s.value, num + 1, state.log + [num]);
      } else {
        history := HistoryDb(num + 1, history.log + [num]);
      }
    }

    /**
     Commits blocks first .. end - 1 again to every target in turn, dying when the budget of block commits runs out.
     `later` is what recovery still has to do afterwards.
     */
    method RecommitLostBlocks(first: nat, end: nat, targets: seq<bool>, budget: nat, ghost later: seq<Op>)
      returns (left: nat, done: bool)
      requires Valid(su, View()) && !open && first <= end <= |blocks|
      requires InOrder(su, View(), PlanRange(first, end, targets) + later)
      modifies this`state, this`history
      ensures Valid(su, View())
      ensures done ==> InOrder(su, View(), later)
      ensures (View(), left, done) == ExecBudget(old(View()), PlanRange(first, end, targets), budget)
    {
      hide Valid, InOrder, ExecBudget, PlanRange, ExecOp, PerBlock;
      ghost var goal := ExecBudget(View(), PlanRange(first, end, targets), budget);
      left := budget;
      for num := first to end
        invariant Valid(su, View()) && blocks == old(blocks)
        invariant InOrder(su, View(), PlanRange(num, end, targets) + later)
        invariant ExecBudget(View(), PlanRange(num, end, targets), left) == goal
      {
        PlanRangeStep(num, end, targets);
        assert targets[0..] == targets;
        for i := 0 to |targets|
          invariant Valid(su, View()) && blocks == old(blocks)
          invariant InOrder(su, View(), PerBlock(num, targets[i..]) + PlanRange(num + 1, end, targets) + later)
          invariant ExecBudget(View(), PerBlock(num, targets[i..]) + PlanRange(num + 1, end, targets), left) == goal
        {
          ghost var op := Op(targets[i], num);
          RangeHead(su, View(), num, end, targets, i, later, left);
          if left == 0 {
            return left, false;
          }
          ExecOpOk(su, View(), op);
          CommitLostBlock(targets[i], num);
          left := left - 1;
        }
        NoTargetLeft(num, targets);
        assert [] + PlanRange(num + 1, end, targets) == PlanRange(num + 1, end, targets);
      }
      RangeDone(View(), end, targets, left);
      assert [] + later == later;
      done := true;
    }

    /** The budget is the number of block commits before the process dies. */
    method SyncStateAndHistoryDBWithBlockstore(budget: nat) returns (ok: bool)
      requires Valid(su, View()) && !open
      modifies this`state, this`history
      ensures |blocks| > 0 && !Refused(su, old(View())) ==>
                View() == ExecBudget(old(View()), Plan(su, old(View())), budget).0
                && ok == ExecBudget(old(View()), Plan(su, old(View())), budget).2
      ensures |blocks| == 0 ==> ok && View() == old(View())
      ensures |blocks| > 0 && Refused(su, old(View())) ==> !ok && View() == old(View())
    {
      hide Valid, InOrder, ExecBudget, PlanRange, ExecOp;
      if |blocks| == 0 {
        return true;
      }
      var last := |blocks| - 1;
      var recoverables := if su.withHistory then [true, false] else [true];
      var recoverers: seq<Op> := [];
      for i := 0 to |recoverables|
        invariant recoverers == Recoverers(View(), recoverables[..i])
        invariant forall j :: 0 <= j < i ==> !DbRefused(su, View(), HeightOf(View(), Op(recoverables[j], 0)))
      {
        var next := if recoverables[i] then state.height else history.height;
        if su.boot.Some? && next <= su.boot.value {
          return false;
        }
        if next > last + 1 {
          return false;
        }
        if next != last + 1 {
          recoverers := recoverers + [Op(recoverables[i], next)];
        }
        assert recoverables[..i + 1][..i] == recoverables[..i];
      }
      assert recoverables[..|recoverables|] == recoverables;
      RecoverersAre(su, View(), recoverables);
      PlanInOrder(su, View());
      if |recoverers| == 0 {
        BudgetPrefix(View(), [], budget);
        return true;
      }
      var left;
      if |recoverers| == 1 {
        ghost var all := PlanRange(recoverers[0].num, last + 1, [recoverers[0].toState]);
        assert all + [] == all;
        left, ok := RecommitLostBlocks(recoverers[0].num, last + 1, [recoverers[0].toState], budget, []);
        return;
      }
      if recoverers[0].num > recoverers[1].num {
        recoverers := [recoverers[1], recoverers[0]];
      }
      ok := CatchUpBoth(recoverers[0], recoverers[1], budget);
    }

    /** Both databases lag: first bring the laggard level with the other, then both to the tip. */
    method CatchUpBoth(low: Op, high: Op, budget: nat) returns (ok: bool)
      requires Valid(su, View()) && !open && low.num <= high.num <= |blocks|
      requires InOrder(su, View(), PlanRange(low.num, high.num, [low.toState]) + PlanRange(high.num, |blocks|, [low.toState, high.toState]))
      modifies this`state, this`history
      ensures var plan := PlanRange(low.num, high.num, [low.toState]) + PlanRange(high.num, |blocks|, [low.toState, high.toState]);
              View() == ExecBudget(old(View()), plan, budget).0 && ok == ExecBudget(old(View()), plan, budget).2
    {
      hide Valid, InOrder, ExecBudget, PlanRange, ExecOp;
      ghost var first := PlanRange(low.num, high.num, [low.toState]);
      ghost var second := PlanRange(high.num, |blocks|, [low.toState, high.toState]);
      BudgetConcat(View(), first, second, budget);
      assert second + [] == second;
      var left := budget;
      if low.num != high.num {
        left, ok := RecommitLostBlocks(low.num, high.num, [low.toState], budget, second);
        if !ok {
          return;
        }
      } else {
        RangeDone(View(), high.num, [low.toState], budget);
        assert [] + second == second;
      }
      left, ok := RecommitLostBlocks(high.num, |blocks|, [low.toState, high.toState], left, []);
    }

    /** Opening after a crash: read the ahead flag off the store heights, then recover. */
    method Restart(budget: nat)
      requires Valid(su, View())
      modifies this
      ensures View() == Next(su, old(View()), Recovery.Restart(budget))
      ensures Valid(su, View())
    {
      hide GoodChain, StoreAfter, ExecOps, Plan;
      ghost var n := View();
      EventOk(su, n, Recovery.Restart(budget));
      open := false;
      isPvtstoreAheadOfBlkstore := IsPvtDataStoreAheadOfBlockStore();
      ghost var n1 := View();
      SamePlan(su, n, n1);
      open := SyncStateAndHistoryDBWithBlockstore(budget);
      BudgetPrefix(n1, Plan(su, n1), budget);
      if |n.blocks| > 0 && !Refused(su, n) && budget < |Plan(su, n)| {
        PlanInOrder(su, n1);
        PrefixOk(su, n1, Plan(su, n1), budget);
      }
    }

    // ---------- commit ----------

    /** Private data first, unless that store is ahead, then the block; the process may die or fail at either write. */
    method CommitToPvtAndBlockStore(b: Block, fate: Fate) returns (outcome: StoreOutcome)
      modifies this`pvtLog, this`blocks, this`isPvtstoreAheadOfBlkstore
      ensures !PvtAccepts(old(View())) ==> outcome == PvtRefused && View() == old(View())
      ensures PvtAccepts(old(View())) && fate == Dies(0) ==> outcome == Died && View() == old(View())
      ensures PvtAccepts(old(View())) && fate == Dies(1) ==> outcome == Died && View() == WritePvt(old(View()))
      ensures PvtAccepts(old(View())) && fate.AddBlockErrs? ==> outcome == AddBlockError && View() == WritePvt(old(View()))
      ensures PvtAccepts(old(View())) && fate.Dies? && fate.writes >= 2 ==>
                outcome == Stored && View() == WriteBlock(WritePvt(old(View())), b, PvtHeight(old(View())))
    {
      var pvtdataStoreHt := |pvtLog|;
      var blockNum := |blocks|;
      if !isPvtstoreAheadOfBlkstore {
        if blockNum != pvtdataStoreHt {
          return PvtRefused;
        }
        if fate == Dies(0) {
          return Died;
        }
        pvtLog := pvtLog + [blockNum];
      }
      if fate == Dies(0) || fate == Dies(1) {
        return Died;
      }
      if fate.AddBlockErrs? {
        return AddBlockError;
      }
      blocks := blocks + [b];
      if pvtdataStoreHt == blockNum + 1 {
        isPvtstoreAheadOfBlkstore := false;
      }
      outcome := Stored;
    }

    /**
     One block. A block whose validation fails with an error is not written at all; an error of the block store is
     returned and leaves the ledger open.
     */
    method Commit(txs: seq<TxRwSet>, fate: Fate) returns (aborted: bool)
      requires Valid(su, View()) && open
      modifies this
      ensures aborted ==> !AllClean(su.cfg, old(state.store), txs) && View() == old(View())
      ensures aborted ==> SomeMayAbort(su.cfg, old(state.store), txs)
      ensures SomeMustAbort(su.cfg, old(state.store), txs) ==> aborted
      ensures !aborted && fate.Dies? ==> View() == Next(su, old(View()), Recovery.Commit(txs, fate.writes))
      ensures !aborted && fate.AddBlockErrs? ==> View() == Next(su, old(View()), AddBlockFails(txs))
      ensures Valid(su, View())
    {
      hide Run, Verdicts, GoodChain, StoreAfter, AllClean, SomeMayAbort, SomeMustAbort;
      ghost var n := View();
      EventOk(su, n, if fate.Dies? then Recovery.Commit(txs, fate.writes) else AddBlockFails(txs));
      var prepared, codes := CommitBlock(su.cfg, state.store, txs);
      if prepared.Err? {
        return true;
      }
      var b := Block(txs, codes);
      aborted := false;
      var stored := CommitToPvtAndBlockStore(b, fate);
      if stored != Stored {
        open := stored != Died;
        return;
      }
      open := fate.writes >= 4;
      if fate.writes == 2 {
        return;
      }
      state := StateDb(prepared.value, |blocks|, state.log + [|blocks| - 1]);
      if fate.writes == 3 {
        return;
      }
      if su.withHistory {
        history := HistoryDb(|blocks|, history.log + [|blocks| - 1]);
      }
    }
  }

  /** `validateAndPrepareBatch` without validation, as recovery calls it: the recorded verdicts decide. */
  method ReplayBlock(db: Store, b: Block) returns (r: Option<Store>)
    requires Normal(db) && |b.txs| == |b.flags|
    ensures r == ReplayFlags(db, b.txs, b.flags)
  {
    hide Materialisable, ApplyTx, Read, Materialised;
    NoUpdates(db);
    var updates: Store := map[];
    assert b.txs[0..] == b.txs && b.flags[0..] == b.flags;
    for i := 0 to |b.txs|
      invariant ReplayFlags(Flat(updates, db), b.txs[i..], b.flags[i..]) == ReplayFlags(db, b.txs, b.flags)
    {
      assert b.txs[i..][1..] == b.txs[i + 1..] && b.flags[i..][1..] == b.flags[i + 1..];
      if b.flags[i] == VALID {
        var txops := new TxOps();
        txops.ApplyPlainWrites(b.txs[i]);
        var ok := txops.ApplyTypedDeltas(b.txs[i], updates, db);
        if !ok {
          return None;
        }
        OpsAreEffect(updates, db, Writes(b.txs[i]));
        updates := updates + txops.ops;
      }
    }
    r := Some(Flat(updates, db));
  }

  // ---------- small facts about plans ----------

  function Recoverers(n: Node, targets: seq<bool>): seq<Op> {
    if |targets| == 0 then []
    else
      var t := targets[|targets| - 1];
      var h := if t then n.state.height else n.history.height;
      Recoverers(n, targets[..|targets| - 1]) + if h != |n.blocks| then [Op(t, h)] else []
  }

  lemma RecoverersAre(su: Setup, n: Node, targets: seq<bool>)
    requires targets == if su.withHistory then [true, false] else [true]
    ensures Recoverers(n, targets) ==
            (if n.state.height != |n.blocks| then [Op(true, n.state.height)] else [])
            + if su.withHistory && n.history.height != |n.blocks| then [Op(false, n.history.height)] else []
  {
    assert [true][..0] == [];
    assert Recoverers(n, [true]) == if n.state.height != |n.blocks| then [Op(true, n.state.height)] else [];
    assert [true, false][..1] == [true];
  }

  lemma PlanRangeStep(num: nat, end: nat, targets: seq<bool>)
    requires num < end
    ensures PlanRange(num, end, targets) == PerBlock(num, targets) + PlanRange(num + 1, end, targets)
  {
  }

  lemma NoTargetLeft(num: nat, targets: seq<bool>)
    ensures PerBlock(num, targets[|targets|..]) == []
  {
  }

  lemma RangeDone(n: Node, end: nat, targets: seq<bool>, budget: nat)
    ensures PlanRange(end, end, targets) == []
    ensures ExecBudget(n, [], budget) == (n, budget, true)
  {
  }

  /** The next step of a recovery that has reached target i of block num. */
  lemma RangeHead(su: Setup, n: Node, num: nat, end: nat, targets: seq<bool>, i: nat, later: seq<Op>, left: nat)
    requires i < |targets| && InOrder(su, n, PerBlock(num, targets[i..]) + PlanRange(num + 1, end, targets) + later)
    ensures var op := Op(targets[i], num);
            var rest := PerBlock(num, targets[i + 1..]) + PlanRange(num + 1, end, targets);
            && op.num == HeightOf(n, op) < |n.blocks| && InOrder(su, ExecOp(n, op), rest + later)
            && ExecBudget(n, PerBlock(num, targets[i..]) + PlanRange(num + 1, end, targets), left) ==
               if left == 0 then (n, 0, false) else ExecBudget(ExecOp(n, op), rest, left - 1)
  {
    hide ExecOp;
    var op := Op(targets[i], num);
    var rest := PerBlock(num, targets[i + 1..]) + PlanRange(num + 1, end, targets);
    assert targets[i..][1..] == targets[i + 1..];
    var ops := PerBlock(num, targets[i..]) + PlanRange(num + 1, end, targets);
    assert ops == [op] + rest;
    assert ops[1..] == rest && (ops + later)[1..] == rest + later;
  }
}
