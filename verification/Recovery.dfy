/**
 The stores of fabric-core/kv_ledger.go as a state machine: block commits that may stop after any store write,
 restarts whose recovery may stop after any block, rollbacks, and a failing block store.
 */
module Recovery {
  import opened Prelude
  import opened RwSet
  import opened Validation

  /** A stored block carries the verdict of each of its transactions. */
  datatype Block = Block(txs: seq<TxRwSet>, flags: seq<Code>)

  /** A database with its savepoint; `log` lists the numbers of the blocks committed to it, in order. */
  datatype StateDb = StateDb(store: Store, height: nat, log: seq<nat>)
  datatype HistoryDb = HistoryDb(height: nat, log: seq<nat>)

  /** Disk contents, and of memory whether the ledger is open and the "private store is ahead" flag. */
  datatype Node = Node(
    blocks: seq<Block>, pvtLog: seq<nat>, state: StateDb, history: HistoryDb, open: bool, ahead: bool)

  const EMPTY: Node := Node([], [], StateDb(map[], 0, []), HistoryDb(0, []), true, false)

  /** Validation parameters, whether there is a history database, and the last block of a boot snapshot. */
  datatype Setup = Setup(cfg: Config, withHistory: bool, boot: Option<nat>)

  /** The private-data store's `LastCommittedBlockHeight`. */
  function PvtHeight(n: Node): nat {
    |n.pvtLog|
  }

  // ---------- replaying a stored block ----------

  /** Replay trusts the recorded verdicts: no check, only the apply pass; None if that fails. */
  ghost function ReplayFlags(s: Store, txs: seq<TxRwSet>, flags: seq<Code>): Option<Store>
    requires |txs| == |flags|
    decreases |txs|
  {
    if |txs| == 0 then Some(s)
    else if flags[0] != VALID then ReplayFlags(s, txs[1..], flags[1..])
    else if !Materialisable(s, Writes(txs[0])) then None
    else ReplayFlags(ApplyTx(s, Writes(txs[0])), txs[1..], flags[1..])
  }

  /** On the store it was validated against, a block replays without error to the store it was committed to. */
  lemma {:induction false} ReplayIsRun(cfg: Config, s: Store, txs: seq<TxRwSet>)
    ensures ReplayFlags(s, txs, Verdicts(cfg, s, txs)) == Some(Run(cfg, s, txs))
    decreases |txs|
  {
    hide Accepts, ApplyTx, Materialisable;
    if |txs| > 0 {
      if Accepts(cfg, s, txs[0]) {
        AcceptedMaterialises(cfg, s, txs[0]);
      }
      ReplayIsRun(cfg, Step(cfg, s, txs[0]), txs[1..]);
    }
  }

  // ---------- chains ----------

  ghost function StoreAfter(cfg: Config, s: Store, blocks: seq<Block>): Store
    decreases |blocks|
  {
    if |blocks| == 0 then s else StoreAfter(cfg, Run(cfg, s, blocks[0].txs), blocks[1..])
  }

  /** Every block carries the verdicts that validation gave on the store before it. */
  ghost predicate GoodChain(cfg: Config, s: Store, blocks: seq<Block>)
    decreases |blocks|
  {
    |blocks| == 0
    || (blocks[0].flags == Verdicts(cfg, s, blocks[0].txs) && GoodChain(cfg, Run(cfg, s, blocks[0].txs), blocks[1..]))
  }

  lemma {:induction false} ChainAt(cfg: Config, s: Store, blocks: seq<Block>, i: nat)
    requires i < |blocks| && GoodChain(cfg, s, blocks)
    ensures blocks[i].flags == Verdicts(cfg, StoreAfter(cfg, s, blocks[..i]), blocks[i].txs)
    ensures StoreAfter(cfg, s, blocks[..i + 1]) == Run(cfg, StoreAfter(cfg, s, blocks[..i]), blocks[i].txs)
    decreases |blocks|
  {
    hide Run, Verdicts;
    if i > 0 {
      ChainAt(cfg, Run(cfg, s, blocks[0].txs), blocks[1..], i - 1);
      assert blocks[..i][1..] == blocks[1..][..i - 1];
      assert blocks[..i + 1][1..] == blocks[1..][..i];
    } else {
      assert blocks[..1][1..] == [];
    }
  }

  lemma {:induction false} ChainTruncates(cfg: Config, s: Store, blocks: seq<Block>, h: nat)
    requires h <= |blocks| && GoodChain(cfg, s, blocks)
    ensures GoodChain(cfg, s, blocks[..h])
    decreases |blocks|
  {
    hide Run, Verdicts;
    if h > 0 {
      ChainTruncates(cfg, Run(cfg, s, blocks[0].txs), blocks[1..], h - 1);
      assert blocks[..h][1..] == blocks[1..][..h - 1];
    }
  }

  lemma {:induction false} ChainExtends(cfg: Config, s: Store, blocks: seq<Block>, b: Block)
    requires GoodChain(cfg, s, blocks) && b.flags == Verdicts(cfg, StoreAfter(cfg, s, blocks), b.txs)
    ensures GoodChain(cfg, s, blocks + [b])
    ensures StoreAfter(cfg, s, blocks + [b]) == Run(cfg, StoreAfter(cfg, s, blocks), b.txs)
    decreases |blocks|
  {
    hide Run, Verdicts;
    if |blocks| > 0 {
      ChainExtends(cfg, Run(cfg, s, blocks[0].txs), blocks[1..], b);
      assert (blocks + [b])[1..] == blocks[1..] + [b];
    } else {
      assert (blocks + [b])[1..] == [];
    }
  }

  // ---------- the recovery plan ----------

  /** Commit block `num` again to the state database or to the history database. */
  datatype Op = Op(toState: bool, num: nat)

  function PerBlock(num: nat, targets: seq<bool>): seq<Op> {
    if |targets| == 0 then [] else [Op(targets[0], num)] + PerBlock(num, targets[1..])
  }

  /** `recommitLostBlocks(first, end - 1, targets...)` */
  function PlanRange(first: nat, end: nat, targets: seq<bool>): seq<Op>
    decreases end - first
  {
    if first >= end then [] else PerBlock(first, targets) + PlanRange(first + 1, end, targets)
  }

  /** The recoverers in the order in which the code handles them, the laggard first. */
  function Plan(su: Setup, n: Node): seq<Op> {
    var tip := |n.blocks|;
    var needState, needHistory := n.state.height != tip, su.withHistory && n.history.height != tip;
    if needState && needHistory then
      var stateLags := n.state.height <= n.history.height;
      var low := if stateLags then n.state.height else n.history.height;
      var high := if stateLags then n.history.height else n.state.height;
      PlanRange(low, high, [stateLags]) + PlanRange(high, tip, [stateLags, !stateLags])
    else if needState then PlanRange(n.state.height, tip, [true])
    else if needHistory then PlanRange(n.history.height, tip, [false])
    else []
  }

  predicate DbRefused(su: Setup, n: Node, height: nat) {
    (su.boot.Some? && height <= su.boot.value) || height > |n.blocks|
  }

  /** Recovery gives up: a database needs blocks from inside the boot snapshot, or is ahead of the block store. */
  predicate Refused(su: Setup, n: Node) {
    |n.blocks| > 0 && (DbRefused(su, n, n.state.height) || (su.withHistory && DbRefused(su, n, n.history.height)))
  }

  ghost function ExecOp(n: Node, op: Op): Node {
    if op.num >= |n.blocks| then n
    else if op.toState then
      var b := n.blocks[op.num];
      var s := if |b.txs| == |b.flags| then ReplayFlags(n.state.store, b.txs, b.flags) else None;
      if s.None? then n else n.(state := StateDb(s.value, op.num + 1, n.state.log + [op.num]))
    else n.(history := HistoryDb(op.num + 1, n.history.log + [op.num]))
  }

  ghost function ExecOps(n: Node, ops: seq<Op>): Node
    decreases |ops|
  {
    if |ops| == 0 then n else ExecOps(ExecOp(n, ops[0]), ops[1..])
  }

  /** The same, dying when the budget of block commits runs out: disk, budget left, whether all was done. */
  ghost function ExecBudget(n: Node, ops: seq<Op>, budget: nat): (Node, nat, bool)
    decreases |ops|
  {
    if |ops| == 0 then (n, budget, true)
    else if budget == 0 then (n, 0, false)
    else ExecBudget(ExecOp(n, ops[0]), ops[1..], budget - 1)
  }

  lemma {:induction false} BudgetPrefix(n: Node, ops: seq<Op>, budget: nat)
    ensures ExecBudget(n, ops, budget) ==
            if budget < |ops| then (ExecOps(n, ops[..budget]), 0, false) else (ExecOps(n, ops), budget - |ops|, true)
    decreases |ops|
  {
    hide ExecOp;
    if |ops| > 0 && budget > 0 {
      BudgetPrefix(ExecOp(n, ops[0]), ops[1..], budget - 1);
      if budget < |ops| {
        assert ops[..budget][1..] == ops[1..][..budget - 1];
      }
    }
  }

  lemma {:induction false} BudgetConcat(n: Node, a: seq<Op>, b: seq<Op>, budget: nat)
    ensures ExecBudget(n, a + b, budget) ==
            var (m, left, done) := ExecBudget(n, a, budget);
            if done then ExecBudget(m, b, left) else (m, left, done)
    decreases |a|
  {
    hide ExecOp;
    if |a| == 0 {
      assert a + b == b;
    } else if budget > 0 {
      BudgetConcat(ExecOp(n, a[0]), a[1..], b, budget - 1);
      assert (a + b)[1..] == a[1..] + b;
    }
  }

  // ---------- events ----------

  datatype Event =
    | Commit(txs: seq<TxRwSet>, writes: nat)      // stops after that many store writes
    | AddBlockFails(txs: seq<TxRwSet>)            // the block store reports an error, the ledger stays open
    | Restart(budget: nat)                        // recovery stops after that many block commits
    | Rollback(height: nat, dropState: bool, dropHistory: bool)

  /** The private-data store accepts only the block after its last one. */
  predicate PvtAccepts(n: Node) {
    n.ahead || PvtHeight(n) == |n.blocks|
  }

  /** Writes block |n.blocks| to the private-data store unless that is ahead. */
  function WritePvt(n: Node): Node {
    if n.ahead then n else n.(pvtLog := n.pvtLog + [|n.blocks|])
  }

  /** Appends the block; `pvtBefore` is the private store's height before this commit. */
  function WriteBlock(n: Node, b: Block, pvtBefore: nat): Node {
    n.(blocks := n.blocks + [b], ahead := if pvtBefore == |n.blocks| + 1 then false else n.ahead)
  }

  ghost function WriteState(su: Setup, n: Node, txs: seq<TxRwSet>): Node
    requires |n.blocks| > 0
  {
    n.(state := StateDb(Run(su.cfg, n.state.store, txs), |n.blocks|, n.state.log + [|n.blocks| - 1]))
  }

  function WriteHistory(su: Setup, n: Node): Node
    requires |n.blocks| > 0
  {
    if su.withHistory then n.(history := HistoryDb(|n.blocks|, n.history.log + [|n.blocks| - 1])) else n
  }

  /** What a commit leaves on disk after its first `writes` store writes: private data, block, state, history. */
  ghost function CommitDisk(su: Setup, n: Node, txs: seq<TxRwSet>, writes: nat): Node {
    var b := Block(txs, Verdicts(su.cfg, n.state.store, txs));
    var n1 := WritePvt(n);
    var n2 := WriteBlock(n1, b, PvtHeight(n));
    var n3 := WriteState(su, n2, txs);
    if writes == 0 then n else if writes == 1 then n1 else if writes == 2 then n2 else if writes == 3 then n3
    else WriteHistory(su, n3)
  }

  ghost function Next(su: Setup, n: Node, ev: Event): Node {
    match ev
    case Commit(txs, writes) =>
      if !n.open || !PvtAccepts(n) then n
      else CommitDisk(su, n, txs, writes).(open := writes >= 4)
    case AddBlockFails(_) => if !n.open || !PvtAccepts(n) then n else WritePvt(n)
    case Restart(budget) =>
      var n1 := n.(open := false, ahead := PvtHeight(n) > |n.blocks|);
      if |n.blocks| == 0 then n1.(open := true)
      else if Refused(su, n) then n1
      else
        var ops := Plan(su, n);
        if budget < |ops| then ExecOps(n1, ops[..budget]) else ExecOps(n1, ops).(open := true)
    case Rollback(height, dropState, dropHistory) =>
      if height == 0 || height > |n.blocks| then n
      else
        n.(blocks := n.blocks[..height], open := false,
           state := if dropState then StateDb(map[], 0, []) else n.state,
           history := if dropHistory then HistoryDb(0, []) else n.history)
  }

  // ---------- the invariant ----------

  /** 0, 1, ..., n - 1. */
  function Upto(n: nat): (s: seq<nat>)
    ensures |s| == n && forall i :: 0 <= i < n ==> s[i] == i
  {
    if n == 0 then [] else Upto(n - 1) + [n - 1]
  }

  /** Each block was committed once, in order, and the store is what a crash-free ledger would hold there. */
  ghost predicate StateOk(su: Setup, n: Node) {
    && Normal(n.state.store) && n.state.log == Upto(n.state.height)
    && (n.state.height <= |n.blocks| ==> n.state.store == StoreAfter(su.cfg, map[], n.blocks[..n.state.height]))
  }

  ghost predicate HistoryOk(n: Node) {
    n.history.log == Upto(n.history.height)
  }

  /** Private data was written once per block, in order, and is missing for no stored block. */
  ghost predicate PvtOk(n: Node) {
    n.pvtLog == Upto(PvtHeight(n)) && PvtHeight(n) >= |n.blocks|
  }

  /** A failed block write has left the private store one block ahead of a ledger that still thinks they are level. */
  ghost predicate Stuck(n: Node) {
    !n.ahead && PvtHeight(n) == |n.blocks| + 1
  }

  /** An open ledger has both databases at the tip and knows whether the private store is ahead, unless it is stuck. */
  ghost predicate OpenOk(su: Setup, n: Node) {
    && n.state.height == |n.blocks|
    && (su.withHistory ==> n.history.height == |n.blocks|)
    && (Stuck(n) || (n.ahead <==> PvtHeight(n) > |n.blocks|))
  }

  ghost predicate Valid(su: Setup, n: Node) {
    && GoodChain(su.cfg, map[], n.blocks)
    && StateOk(su, n) && HistoryOk(n) && PvtOk(n)
    && (|n.blocks| == 0 ==> n.state.height == 0 && n.history.height == 0)
    && (n.open ==> OpenOk(su, n))
  }

  // ---------- recovery is exactly-once ----------

  ghost function HeightOf(n: Node, op: Op): nat {
    if op.toState then n.state.height else n.history.height
  }

  /** Every step commits the block that its database needs next. */
  ghost predicate InOrder(su: Setup, n: Node, ops: seq<Op>)
    decreases |ops|
  {
    |ops| == 0
    || (ops[0].num == HeightOf(n, ops[0]) < |n.blocks| && InOrder(su, ExecOp(n, ops[0]), ops[1..]))
  }

  lemma UptoMore(n: nat)
    ensures Upto(n + 1) == Upto(n) + [n]
  {
  }

  lemma ExecOpOk(su: Setup, n: Node, op: Op)
    requires Valid(su, n) && !n.open && op.num == HeightOf(n, op) < |n.blocks|
    ensures Valid(su, ExecOp(n, op)) && !ExecOp(n, op).open
    ensures ExecOp(n, op).blocks == n.blocks && ExecOp(n, op).ahead == n.ahead && ExecOp(n, op).pvtLog == n.pvtLog
    ensures ExecOp(n, op).state.height == if op.toState then op.num + 1 else n.state.height
    ensures ExecOp(n, op).history.height == if op.toState then n.history.height else op.num + 1
  {
    hide Run, Verdicts, ReplayFlags, GoodChain, StoreAfter;
    UptoMore(op.num);
    if op.toState {
      ChainAt(su.cfg, map[], n.blocks, op.num);
      ReplayIsRun(su.cfg, n.state.store, n.blocks[op.num].txs);
      RunNormal(su.cfg, n.state.store, n.blocks[op.num].txs);
    }
  }

  /** A recovery that stops anywhere leaves a valid disk. */
  lemma {:induction false} PrefixOk(su: Setup, n: Node, ops: seq<Op>, b: nat)
    requires Valid(su, n) && !n.open && InOrder(su, n, ops) && b <= |ops|
    ensures var m := ExecOps(n, ops[..b]);
            Valid(su, m) && !m.open && m.blocks == n.blocks && m.ahead == n.ahead && m.pvtLog == n.pvtLog
    decreases |ops|
  {
    hide Valid, ExecOp;
    if b > 0 {
      ExecOpOk(su, n, ops[0]);
      PrefixOk(su, ExecOp(n, ops[0]), ops[1..], b - 1);
      assert ops[..b][1..] == ops[1..][..b - 1];
    }
  }

  lemma {:induction false} ExecConcat(su: Setup, n: Node, a: seq<Op>, b: seq<Op>)
    ensures ExecOps(n, a + b) == ExecOps(ExecOps(n, a), b)
    ensures InOrder(su, n, a) && InOrder(su, ExecOps(n, a), b) ==> InOrder(su, n, a + b)
    decreases |a|
  {
    hide ExecOp;
    if |a| == 0 {
      assert a + b == b;
    } else {
      ExecConcat(su, ExecOp(n, a[0]), a[1..], b);
      assert (a + b)[1..] == a[1..] + b;
    }
  }

  ghost predicate AtHeight(n: Node, targets: seq<bool>, h: nat) {
    forall t :: t in targets ==> HeightOf(n, Op(t, 0)) == h
  }

  /** One block for every target. */
  lemma BlockInOrder(su: Setup, n: Node, num: nat, targets: seq<bool>)
    requires Valid(su, n) && !n.open && num < |n.blocks|
    requires targets == [true] || targets == [false] || targets == [true, false] || targets == [false, true]
    requires AtHeight(n, targets, num)
    ensures InOrder(su, n, PerBlock(num, targets))
    ensures var m := ExecOps(n, PerBlock(num, targets));
            && Valid(su, m) && !m.open && m.blocks == n.blocks && m.ahead == n.ahead && m.pvtLog == n.pvtLog
            && AtHeight(m, targets, num + 1)
            && (true !in targets ==> m.state == n.state) && (false !in targets ==> m.history == n.history)
  {
    hide Valid, ExecOp;
    var ops := PerBlock(num, targets);
    var m := ExecOp(n, ops[0]);
    assert targets[0] in targets;
    ExecOpOk(su, n, ops[0]);
    OtherDbKept(n, ops[0]);
    if |targets| == 1 {
      assert targets[1..] == [] && PerBlock(num, []) == [];
      assert ops == [ops[0]] && ops[1..] == [];
    } else {
      assert targets[1] in targets;
      assert targets[1..] == [targets[1]] && [targets[1]][1..] == [] && PerBlock(num, []) == [];
      assert PerBlock(num, [targets[1]]) == [Op(targets[1], num)];
      assert ops == [ops[0], Op(targets[1], num)] && ops[1..] == [ops[1]] && [ops[1]][1..] == [];
      ExecOpOk(su, m, ops[1]);
      OtherDbKept(m, ops[1]);
      assert InOrder(su, m, [ops[1]]);
      assert ExecOps(m, [ops[1]]) == ExecOp(m, ops[1]);
    }
  }

  lemma OtherDbKept(n: Node, op: Op)
    ensures op.toState ==> ExecOp(n, op).history == n.history
    ensures !op.toState ==> ExecOp(n, op).state == n.state
  {
  }

  lemma {:induction false} RangeInOrder(su: Setup, n: Node, first: nat, end: nat, targets: seq<bool>)
    requires Valid(su, n) && !n.open && first <= end <= |n.blocks|
    requires targets == [true] || targets == [false] || targets == [true, false] || targets == [false, true]
    requires AtHeight(n, targets, first)
    ensures InOrder(su, n, PlanRange(first, end, targets))
    ensures var m := ExecOps(n, PlanRange(first, end, targets));
            && Valid(su, m) && !m.open && m.blocks == n.blocks && m.ahead == n.ahead && m.pvtLog == n.pvtLog
            && AtHeight(m, targets, end)
            && (true !in targets ==> m.state == n.state) && (false !in targets ==> m.history == n.history)
    decreases end - first
  {
    hide Valid, ExecOp, InOrder, ExecOps, AtHeight, PerBlock;
    if first < end {
      BlockInOrder(su, n, first, targets);
      var m := ExecOps(n, PerBlock(first, targets));
      RangeInOrder(su, m, first + 1, end, targets);
      ExecConcat(su, n, PerBlock(first, targets), PlanRange(first + 1, end, targets));
    } else {
      NothingToDo(su, n);
    }
  }

  lemma NothingToDo(su: Setup, n: Node)
    ensures InOrder(su, n, []) && ExecOps(n, []) == n
  {
  }

  /** The plan commits to each database exactly the blocks it lacks, in order, and brings both to the tip. */
  lemma PlanInOrder(su: Setup, n: Node)
    requires Valid(su, n) && !n.open && !Refused(su, n) && |n.blocks| > 0
    ensures InOrder(su, n, Plan(su, n))
    ensures var m := ExecOps(n, Plan(su, n));
            && Valid(su, m) && !m.open && m.blocks == n.blocks && m.ahead == n.ahead && m.pvtLog == n.pvtLog
            && m.state.height == |n.blocks| && (su.withHistory ==> m.history.height == |n.blocks|)
  {
    hide Valid, ExecOp, InOrder, ExecOps, PlanRange;
    var tip := |n.blocks|;
    var needState, needHistory := n.state.height != tip, su.withHistory && n.history.height != tip;
    if needState && needHistory {
      BothLag(su, n);
    } else if needState {
      RangeInOrder(su, n, n.state.height, tip, [true]);
      Reached(ExecOps(n, Plan(su, n)), [true], true, tip);
    } else if needHistory {
      RangeInOrder(su, n, n.history.height, tip, [false]);
      Reached(ExecOps(n, Plan(su, n)), [false], false, tip);
    } else {
      NothingToDo(su, n);
    }
  }

  lemma Reached(n: Node, targets: seq<bool>, t: bool, h: nat)
    requires AtHeight(n, targets, h) && t in targets
    ensures if t then n.state.height == h else n.history.height == h
  {
    assert HeightOf(n, Op(t, 0)) == h;
  }

  lemma BothLag(su: Setup, n: Node)
    requires Valid(su, n) && !n.open && !Refused(su, n) && |n.blocks| > 0 && su.withHistory
    requires n.state.height != |n.blocks| && n.history.height != |n.blocks|
    ensures InOrder(su, n, Plan(su, n))
    ensures var m := ExecOps(n, Plan(su, n));
            && Valid(su, m) && !m.open && m.blocks == n.blocks && m.ahead == n.ahead && m.pvtLog == n.pvtLog
            && m.state.height == |n.blocks| && m.history.height == |n.blocks|
  {
    hide Valid, ExecOp, InOrder, ExecOps, PlanRange;
    var tip := |n.blocks|;
    var stateLags := n.state.height <= n.history.height;
    var low := if stateLags then n.state.height else n.history.height;
    var high := if stateLags then n.history.height else n.state.height;
    RangeInOrder(su, n, low, high, [stateLags]);
    var m := ExecOps(n, PlanRange(low, high, [stateLags]));
    Reached(m, [stateLags], stateLags, high);
    RangeInOrder(su, m, high, tip, [stateLags, !stateLags]);
    ExecConcat(su, n, PlanRange(low, high, [stateLags]), PlanRange(high, tip, [stateLags, !stateLags]));
    var done := ExecOps(m, PlanRange(high, tip, [stateLags, !stateLags]));
    Reached(done, [stateLags, !stateLags], true, tip);
    Reached(done, [stateLags, !stateLags], false, tip);
  }

  // ---------- every event keeps the invariant ----------

  lemma PvtWriteOk(su: Setup, n: Node)
    requires Valid(su, n) && n.open && PvtAccepts(n)
    ensures Valid(su, WritePvt(n).(open := false)) && PvtHeight(WritePvt(n)) > |n.blocks|
  {
    hide StateOk, HistoryOk, GoodChain;
    UptoMore(PvtHeight(n));
    var m := WritePvt(n).(open := false);
    SameDbs(su, n, m);
  }

  lemma SameDbs(su: Setup, n: Node, m: Node)
    requires n.blocks == m.blocks && n.state == m.state && n.history == m.history
    ensures StateOk(su, n) == StateOk(su, m) && HistoryOk(n) == HistoryOk(m)
  {
  }

  lemma BlockWriteOk(su: Setup, n: Node, b: Block, pvtBefore: nat)
    requires Valid(su, n) && !n.open && PvtHeight(n) > |n.blocks| && n.state.height == |n.blocks|
    requires b.flags == Verdicts(su.cfg, n.state.store, b.txs)
    ensures Valid(su, WriteBlock(n, b, pvtBefore))
    ensures StoreAfter(su.cfg, map[], n.blocks + [b]) == Run(su.cfg, n.state.store, b.txs)
  {
    hide Run, Verdicts, GoodChain, StoreAfter;
    assert n.blocks[..|n.blocks|] == n.blocks;
    ChainExtends(su.cfg, map[], n.blocks, b);
    assert (n.blocks + [b])[..|n.blocks|] == n.blocks;
  }

  lemma StateWriteOk(su: Setup, n: Node, txs: seq<TxRwSet>)
    requires Valid(su, n) && !n.open && |n.blocks| > 0 && n.state.height == |n.blocks| - 1
    requires StoreAfter(su.cfg, map[], n.blocks) == Run(su.cfg, n.state.store, txs)
    ensures Valid(su, WriteState(su, n, txs))
  {
    hide Run, GoodChain, StoreAfter;
    RunNormal(su.cfg, n.state.store, txs);
    UptoMore(n.state.height);
    assert n.blocks[..|n.blocks|] == n.blocks;
  }

  lemma HistoryWriteOk(su: Setup, n: Node)
    requires Valid(su, n) && !n.open && |n.blocks| > 0 && n.state.height == |n.blocks|
    requires su.withHistory ==> n.history.height == |n.blocks| - 1
    requires n.ahead <==> PvtHeight(n) > |n.blocks|
    ensures Valid(su, WriteHistory(su, n).(open := true))
  {
    hide GoodChain, StoreAfter;
    UptoMore(|n.blocks| - 1);
  }

  lemma CommitOk(su: Setup, n: Node, txs: seq<TxRwSet>, writes: nat)
    requires Valid(su, n) && n.open && PvtAccepts(n)
    ensures Valid(su, Next(su, n, Commit(txs, writes)))
  {
    hide Run, Verdicts, StateOk, HistoryOk, PvtOk, GoodChain, StoreAfter;
    var b := Block(txs, Verdicts(su.cfg, n.state.store, txs));
    var n1 := WritePvt(n).(open := false);
    var n2 := WriteBlock(n1, b, PvtHeight(n));
    var n3 := WriteState(su, n2, txs);
    SameDbs(su, n, n.(open := false));
    SamePvt(n, n.(open := false));
    PvtWriteOk(su, n);
    BlockWriteOk(su, n1, b, PvtHeight(n));
    StateWriteOk(su, n2, txs);
    HistoryWriteOk(su, n3);
  }

  lemma SamePvt(n: Node, m: Node)
    requires n.blocks == m.blocks && n.pvtLog == m.pvtLog
    ensures PvtOk(n) == PvtOk(m)
  {
  }

  lemma RestartOk(su: Setup, n: Node, budget: nat)
    requires Valid(su, n)
    ensures Valid(su, Next(su, n, Restart(budget)))
  {
    hide Run, GoodChain, StoreAfter, ExecOps, InOrder, Plan;
    var n1 := n.(open := false, ahead := PvtHeight(n) > |n.blocks|);
    assert Valid(su, n1);
    if |n.blocks| > 0 && !Refused(su, n) {
      assert Plan(su, n) == Plan(su, n1) by { SamePlan(su, n, n1); }
      PlanInOrder(su, n1);
      if budget < |Plan(su, n1)| {
        PrefixOk(su, n1, Plan(su, n1), budget);
      }
    }
  }

  lemma SamePlan(su: Setup, n: Node, m: Node)
    requires n.blocks == m.blocks && n.state == m.state && n.history == m.history
    ensures Plan(su, n) == Plan(su, m)
  {
  }

  lemma RollbackOk(su: Setup, n: Node, height: nat, dropState: bool, dropHistory: bool)
    requires Valid(su, n)
    ensures Valid(su, Next(su, n, Rollback(height, dropState, dropHistory)))
  {
    hide Run, GoodChain, Verdicts;
    if 0 < height <= |n.blocks| {
      ChainTruncates(su.cfg, map[], n.blocks, height);
      var m := Next(su, n, Rollback(height, dropState, dropHistory));
      if m.state.height <= height {
        assert m.blocks[..m.state.height] == n.blocks[..m.state.height];
      }
    }
  }

  /** Whatever happens to a valid ledger, it stays valid. */
  lemma EventOk(su: Setup, n: Node, ev: Event)
    requires Valid(su, n)
    ensures Valid(su, Next(su, n, ev))
  {
    hide Run, GoodChain, StoreAfter;
    match ev
    case Commit(txs, writes) =>
      if n.open && PvtAccepts(n) {
        CommitOk(su, n, txs, writes);
      }
    case AddBlockFails(_) =>
      UptoMore(PvtHeight(n));
    case Restart(budget) =>
      RestartOk(su, n, budget);
    case Rollback(height, dropState, dropHistory) =>
      RollbackOk(su, n, height, dropState, dropHistory);
  }

  ghost function RunEvents(su: Setup, n: Node, evs: seq<Event>): Node
    decreases |evs|
  {
    if |evs| == 0 then n else RunEvents(su, Next(su, n, evs[0]), evs[1..])
  }

  lemma {:induction false} RunOk(su: Setup, n: Node, evs: seq<Event>)
    requires Valid(su, n)
    ensures Valid(su, RunEvents(su, n, evs))
    decreases |evs|
  {
    hide Next, Valid;
    if |evs| > 0 {
      EventOk(su, n, evs[0]);
      RunOk(su, Next(su, n, evs[0]), evs[1..]);
    }
  }

  /**
   Exactly-once, over all runs of commits, crashes, restarts, crashed restarts, rollbacks and failed block writes:
   each database holds each block once and in order, with the store of a crash-free ledger at its height, and
   private data is written once per block and missing for none.
   */
  lemma ExactlyOnce(su: Setup, evs: seq<Event>)
    ensures Valid(su, RunEvents(su, EMPTY, evs))
  {
    RunOk(su, EMPTY, evs);
  }

  // ---------- a completed recovery ----------

  /** A recovery that is neither refused nor interrupted opens the ledger with both databases at the tip. */
  lemma RecoveryReachesTip(su: Setup, n: Node, budget: nat)
    requires Valid(su, n) && !Refused(su, n) && |n.blocks| > 0 && budget >= |Plan(su, n)|
    ensures var m := Next(su, n, Restart(budget));
            && m.open && m.blocks == n.blocks
            && m.state.log == Upto(|n.blocks|) && (su.withHistory ==> m.history.log == Upto(|n.blocks|))
            && m.state.store == StoreAfter(su.cfg, map[], n.blocks)
            && (m.ahead <==> PvtHeight(m) > |m.blocks|)
  {
    hide Run, GoodChain, StoreAfter, ExecOps, InOrder, Plan;
    var n1 := n.(open := false, ahead := PvtHeight(n) > |n.blocks|);
    assert Valid(su, n1);
    SamePlan(su, n, n1);
    PlanInOrder(su, n1);
    assert n.blocks[..|n.blocks|] == n.blocks;
  }

  /** The commits of a ledger that never crashes. */
  ghost function CrashFree(blocks: seq<Block>): seq<Event> {
    seq(|blocks|, i requires 0 <= i < |blocks| => Commit(blocks[i].txs, 4))
  }

  /** Open, with the private store level with the block store. */
  ghost predicate Level(n: Node) {
    n.open && !n.ahead && PvtHeight(n) == |n.blocks|
  }

  lemma CrashFreeStep(su: Setup, n: Node, b: Block)
    requires Valid(su, n) && Level(n) && b.flags == Verdicts(su.cfg, n.state.store, b.txs)
    ensures var m := Next(su, n, Commit(b.txs, 4));
            && Valid(su, m) && Level(m) && m.blocks == n.blocks + [b]
            && m.state.store == Run(su.cfg, n.state.store, b.txs)
  {
    hide Run, Verdicts, StateOk, HistoryOk, GoodChain;
    CommitOk(su, n, b.txs, 4);
  }

  lemma {:induction false} CrashFreeRun(su: Setup, n: Node, blocks: seq<Block>)
    requires Valid(su, n) && Level(n) && GoodChain(su.cfg, n.state.store, blocks)
    ensures var m := RunEvents(su, n, CrashFree(blocks));
            m.blocks == n.blocks + blocks && m.state.store == StoreAfter(su.cfg, n.state.store, blocks)
    decreases |blocks|
  {
    hide Run, Verdicts, Valid, Next, Level;
    if |blocks| > 0 {
      var m := Next(su, n, Commit(blocks[0].txs, 4));
      CrashFreeStep(su, n, blocks[0]);
      CrashFreeRun(su, m, blocks[1..]);
      assert CrashFree(blocks)[0] == Commit(blocks[0].txs, 4) && CrashFree(blocks)[1..] == CrashFree(blocks[1..]);
      assert n.blocks + [blocks[0]] + blocks[1..] == n.blocks + blocks;
    } else {
      assert n.blocks + blocks == n.blocks;
    }
  }

  /**
   Recovered balances are crash-free balances: after any history of crashes, a completed recovery leaves the store
   that committing the same blocks without any crash leaves, although deltas cannot be applied twice.
   */
  lemma RecoveredIsCrashFree(su: Setup, evs: seq<Event>, budget: nat)
    requires var n := RunEvents(su, EMPTY, evs);
             !Refused(su, n) && |n.blocks| > 0 && budget >= |Plan(su, n)|
    ensures var m := Next(su, RunEvents(su, EMPTY, evs), Restart(budget));
            var ideal := RunEvents(su, EMPTY, CrashFree(m.blocks));
            m.open && m.blocks == ideal.blocks && m.state.store == ideal.state.store
  {
    hide Next, Plan, Refused;
    var n := RunEvents(su, EMPTY, evs);
    ExactlyOnce(su, evs);
    RecoveryReachesTip(su, n, budget);
    CrashFreeRun(su, EMPTY, n.blocks);
    assert [] + n.blocks == n.blocks;
  }

  // ---------- when recovery is refused, when the flag is wrong ----------

  ghost predicate Behind(n: Node) {
    n.state.height <= |n.blocks| && n.history.height <= |n.blocks|
  }

  /** Only a rollback that keeps a database can put one ahead of the block store. */
  lemma StaysBehind(su: Setup, n: Node, ev: Event)
    requires Valid(su, n) && Behind(n)
    requires ev.Rollback? ==> ev.dropState && ev.dropHistory
    ensures Behind(Next(su, n, ev))
  {
    hide Run, GoodChain, StoreAfter, Verdicts;
    if ev.Restart? && |n.blocks| > 0 && !Refused(su, n) {
      var n1 := n.(open := false, ahead := PvtHeight(n) > |n.blocks|);
      assert Valid(su, n1);
      SamePlan(su, n, n1);
      PlanInOrder(su, n1);
      PlanBehind(su, n1, Plan(su, n1), if ev.budget < |Plan(su, n1)| then ev.budget else |Plan(su, n1)|);
      assert Plan(su, n1)[..|Plan(su, n1)|] == Plan(su, n1);
    }
  }

  lemma {:induction false} PlanBehind(su: Setup, n: Node, ops: seq<Op>, b: nat)
    requires Valid(su, n) && !n.open && InOrder(su, n, ops) && b <= |ops| && Behind(n)
    ensures Behind(ExecOps(n, ops[..b]))
    decreases |ops|
  {
    hide Valid, ExecOp;
    if b > 0 {
      ExecOpOk(su, n, ops[0]);
      PlanBehind(su, ExecOp(n, ops[0]), ops[1..], b - 1);
      assert ops[..b][1..] == ops[1..][..b - 1];
    }
  }

  /** Rollbacks, if any, drop both databases, as the rollback tool does. */
  ghost predicate DropsDbs(evs: seq<Event>) {
    forall i :: 0 <= i < |evs| && evs[i].Rollback? ==> evs[i].dropState && evs[i].dropHistory
  }

  lemma {:induction false} RunBehind(su: Setup, n: Node, evs: seq<Event>)
    requires Valid(su, n) && Behind(n) && DropsDbs(evs)
    ensures Behind(RunEvents(su, n, evs))
    decreases |evs|
  {
    hide Next, Valid;
    if |evs| > 0 {
      EventOk(su, n, evs[0]);
      StaysBehind(su, n, evs[0]);
      RunBehind(su, Next(su, n, evs[0]), evs[1..]);
    }
  }

  /** Over whole runs, what each database holds is a prefix 0, 1, ... of the block store, and recovery is never refused. */
  lemma AlwaysAPrefix(su: Setup, evs: seq<Event>)
    requires DropsDbs(evs)
    ensures var n := RunEvents(su, EMPTY, evs);
            && n.state.log == Upto(n.state.height) && n.state.height <= |n.blocks|
            && n.history.log == Upto(n.history.height) && n.history.height <= |n.blocks|
            && n.state.store == StoreAfter(su.cfg, map[], n.blocks[..n.state.height])
            && (su.boot.None? ==> !Refused(su, n))
  {
    hide Next;
    ExactlyOnce(su, evs);
    RunBehind(su, EMPTY, evs);
    if su.boot.None? {
      BehindRecovers(su, RunEvents(su, EMPTY, evs));
    }
  }

  /** What a commit that dies has written: private data first, then the block, then state, then history. */
  lemma WriteOrder(su: Setup, n: Node, txs: seq<TxRwSet>, writes: nat)
    requires n.open && PvtAccepts(n)
    ensures var m := Next(su, n, Commit(txs, writes));
            && PvtHeight(m) == PvtHeight(n) + (if writes >= 1 && !n.ahead then 1 else 0)
            && |m.blocks| == |n.blocks| + (if writes >= 2 then 1 else 0)
            && m.state.height == (if writes >= 3 then |n.blocks| + 1 else n.state.height)
            && m.history.height == (if writes >= 4 && su.withHistory then |n.blocks| + 1 else n.history.height)
            && (m.open <==> writes >= 4)
  {
    hide Run, Verdicts;
  }

  /** Recovery reads only blocks that the block store has: after the boot snapshot and up to the tip. */
  lemma PlanIsAvailable(su: Setup, n: Node, op: Op)
    requires |n.blocks| > 0 && !Refused(su, n) && op in Plan(su, n)
    ensures op.num < |n.blocks| && (su.boot.Some? ==> op.num > su.boot.value)
    ensures !op.toState ==> su.withHistory
  {
    hide PlanRange;
    forall first: nat, end: nat, targets ensures op in PlanRange(first, end, targets) ==> first <= op.num < end && op.toState in targets {
      if op in PlanRange(first, end, targets) {
        RangeHolds(first, end, targets, op);
      }
    }
  }

  lemma {:induction false} RangeHolds(first: nat, end: nat, targets: seq<bool>, op: Op)
    requires op in PlanRange(first, end, targets)
    ensures first <= op.num < end && op.toState in targets
    decreases end - first
  {
    if op in PerBlock(first, targets) {
      PerBlockHolds(first, targets, op);
    } else {
      RangeHolds(first + 1, end, targets, op);
    }
  }

  lemma {:induction false} PerBlockHolds(num: nat, targets: seq<bool>, op: Op)
    requires op in PerBlock(num, targets)
    ensures op.num == num && op.toState in targets
  {
    if op != Op(targets[0], num) {
      PerBlockHolds(num, targets[1..], op);
    }
  }

  /** And it is refused only if a database needs a block that is not there: inside the snapshot, or beyond the tip. */
  lemma RefusedMeans(su: Setup, n: Node)
    ensures Refused(su, n) <==>
              && |n.blocks| > 0
              && (|| n.state.height > |n.blocks| || (su.boot.Some? && n.state.height <= su.boot.value)
                  || (su.withHistory && (n.history.height > |n.blocks| || (su.boot.Some? && n.history.height <= su.boot.value))))
  {
  }

  /** A ledger that never had a snapshot and whose databases are behind can always recover. */
  lemma BehindRecovers(su: Setup, n: Node)
    requires Behind(n) && su.boot.None?
    ensures !Refused(su, n)
  {
  }

  lemma InterruptedStaysClosed(su: Setup, n: Node, budget: nat)
    requires Valid(su, n) && !Refused(su, n) && |n.blocks| > 0 && budget < |Plan(su, n)|
    ensures !Next(su, n, Restart(budget)).open
  {
    hide Run, GoodChain, StoreAfter, ExecOps, InOrder, Plan;
    var n1 := n.(open := false, ahead := PvtHeight(n) > |n.blocks|);
    assert Valid(su, n1);
    SamePlan(su, n, n1);
    PlanInOrder(su, n1);
    PrefixOk(su, n1, Plan(su, n1), budget);
  }

  /**
   Exactly when an event makes the ahead flag wrong: a block write failed in an open ledger right after the private
   data of that block was written.
   */
  lemma FlagWrongExactly(su: Setup, n: Node, ev: Event)
    requires Valid(su, n) && (n.open ==> !Stuck(n))
    ensures var m := Next(su, n, ev);
            (m.open && !(m.ahead <==> PvtHeight(m) > |m.blocks|)) <==> (ev.AddBlockFails? && n.open && !n.ahead)
  {
    hide Run, GoodChain, StoreAfter, Verdicts, Plan, ExecOps, InOrder;
    EventOk(su, n, ev);
    if ev.Restart? && |n.blocks| > 0 && !Refused(su, n) {
      if ev.budget >= |Plan(su, n)| {
        RecoveryReachesTip(su, n, ev.budget);
      } else {
        InterruptedStaysClosed(su, n, ev.budget);
      }
    }
  }

  lemma {:induction false} RunFlag(su: Setup, n: Node, evs: seq<Event>)
    requires Valid(su, n) && (n.open ==> !Stuck(n)) && forall i :: 0 <= i < |evs| ==> !evs[i].AddBlockFails?
    ensures RunEvents(su, n, evs).open ==> !Stuck(RunEvents(su, n, evs))
    decreases |evs|
  {
    hide Next, Valid;
    if |evs| > 0 {
      EventOk(su, n, evs[0]);
      FlagWrongExactly(su, n, evs[0]);
      RunFlag(su, Next(su, n, evs[0]), evs[1..]);
    }
  }

  /**
   Over whole runs of commits, crashes, rollbacks and restarts, at every boundary where the ledger is open the ahead
   flag is true exactly when the private store is ahead, and private data is there once for every stored block.
   */
  lemma AheadFlagExact(su: Setup, evs: seq<Event>)
    requires forall i :: 0 <= i < |evs| ==> !evs[i].AddBlockFails?
    ensures var n := RunEvents(su, EMPTY, evs);
            && (n.open ==> (n.ahead <==> PvtHeight(n) > |n.blocks|))
            && n.pvtLog == Upto(PvtHeight(n)) && PvtHeight(n) >= |n.blocks|
  {
    hide Next;
    ExactlyOnce(su, evs);
    RunFlag(su, EMPTY, evs);
  }

  /** A ledger that is stuck takes no block, whatever is offered to it and however often. */
  lemma {:induction false} StuckTakesNothing(su: Setup, n: Node, evs: seq<Event>)
    requires n.open && Stuck(n) && forall i :: 0 <= i < |evs| ==> evs[i].Commit? || evs[i].AddBlockFails?
    ensures RunEvents(su, n, evs) == n
    decreases |evs|
  {
    if |evs| > 0 {
      assert Next(su, n, evs[0]) == n;
      StuckTakesNothing(su, n, evs[1..]);
    }
  }

  /** The one exception: after a failed block write every commit is refused until a restart sets the flag right. */
  lemma StuckUntilRestart(su: Setup, n: Node, txs: seq<TxRwSet>, evs: seq<Event>)
    requires Valid(su, n) && Level(n) && !Refused(su, n)
    requires forall i :: 0 <= i < |evs| ==> evs[i].Commit? || evs[i].AddBlockFails?
    ensures var m := Next(su, n, AddBlockFails(txs));
            && m.open && Stuck(m) && RunEvents(su, m, evs) == m
            && Next(su, m, Restart(0)).open && Next(su, m, Restart(0)).ahead
  {
    hide Run, GoodChain, StoreAfter, Verdicts;
    var m := Next(su, n, AddBlockFails(txs));
    EventOk(su, n, AddBlockFails(txs));
    StuckTakesNothing(su, m, evs);
  }
}
