/** Prefix safety: what the invariant of a typed key survives, over whole runs. */
module Safety {
  import opened Prelude
  import opened TypedDelta
  import opened RwSet
  import opened Validation

  /** The schema in force for k, if it has one with a usable invariant. */
  ghost function InvariantFor(cfg: Config, s: Store, k: Key): Option<Invariant> {
    match SchemaOf(cfg, s, k)
    case Found(schema) => InvariantOf(schema)
    case _ => None
  }

  ghost predicate Governed(cfg: Config, s: Store, k: Key) {
    SchemaOf(cfg, s, k).Found?
  }

  /** k's effective value, an absent key counting as 0, satisfies its schema's invariant. */
  ghost predicate Safe(cfg: Config, s: Store, k: Key) {
    && InvariantFor(cfg, s, k).Some?
    && Current(s, k).Some?
    && Holds(InvariantFor(cfg, s, k).value, Current(s, k).value)
  }

  /** No VALID transaction of the run rewrites k's schema record. */
  ghost predicate SchemaKept(cfg: Config, s: Store, txs: seq<TxRwSet>, k: Key)
    decreases |txs|
  {
    |txs| == 0
    || ((Accepts(cfg, s, txs[0]) ==> SchemaRecord(cfg, k) !in Touched(Writes(txs[0])))
        && SchemaKept(cfg, Step(cfg, s, txs[0]), txs[1..], k))
  }

  /** Some VALID transaction of the run writes k. */
  ghost predicate Written(cfg: Config, s: Store, txs: seq<TxRwSet>, k: Key)
    decreases |txs|
  {
    |txs| > 0
    && ((Accepts(cfg, s, txs[0]) && k in Touched(Writes(txs[0]))) || Written(cfg, Step(cfg, s, txs[0]), txs[1..], k))
  }

  lemma SchemaUnchanged(cfg: Config, s: Store, ws: seq<Write>, k: Key)
    requires SchemaRecord(cfg, k) !in Touched(ws)
    ensures SchemaOf(cfg, ApplyTx(s, ws), k) == SchemaOf(cfg, s, k)
  {
    Untouched(s, ws, SchemaRecord(cfg, k));
  }

  /** An accepted write to a governed key leaves it safe, whatever was stored before. */
  lemma AcceptedWriteIsSafe(cfg: Config, s: Store, tx: TxRwSet, k: Key)
    requires Governed(cfg, s, k) && Accepts(cfg, s, tx)
    requires k in Touched(Writes(tx)) && SchemaRecord(cfg, k) !in Touched(Writes(tx))
    ensures Safe(cfg, ApplyTx(s, Writes(tx)), k)
  {
    var ws := Writes(tx);
    SchemaUnchanged(cfg, s, ws, k);
    assert TypedAccepts(cfg, s, tx);
    if HasDelta(ws, k) {
      DeltaLeavesSafe(cfg, s, tx, k);
    } else {
      PlainLeavesSafe(cfg, s, tx, k);
    }
  }

  lemma DeltaLeavesSafe(cfg: Config, s: Store, tx: TxRwSet, k: Key)
    requires TypedAccepts(cfg, s, tx) && HasDelta(Writes(tx), k)
    ensures InvariantFor(cfg, s, k).Some?
    ensures Current(ApplyTx(s, Writes(tx)), k).Some?
    ensures Holds(InvariantFor(cfg, s, k).value, Current(ApplyTx(s, Writes(tx)), k).value)
  {
    var w :| w in Writes(tx) && Same(w.key, k) && IsDelta(w);
    assert KeyAccepts(cfg, s, Writes(tx), k);
    assert Get(ApplyTx(s, Writes(tx)), k) == NewValue(s, Writes(tx), k);
  }

  lemma PlainLeavesSafe(cfg: Config, s: Store, tx: TxRwSet, k: Key)
    requires Governed(cfg, s, k) && TypedAccepts(cfg, s, tx)
    requires k in Touched(Writes(tx)) && !HasDelta(Writes(tx), k)
    ensures InvariantFor(cfg, s, k).Some?
    ensures Current(ApplyTx(s, Writes(tx)), k).Some?
    ensures Holds(InvariantFor(cfg, s, k).value, Current(ApplyTx(s, Writes(tx)), k).value)
  {
    var ws := Writes(tx);
    PlainEffectSource(ws, k);
    var v :| v in ws && v.key == k;
    var w :| w in ws && Same(w.key, k) && !IsDelta(w) && PlainEffect(ws, k).value == WrittenValue(w.kv);
    assert PlainAccepts(cfg, s, w);
    assert Get(ApplyTx(s, ws), k) == WrittenValue(w.kv);
  }

  /** One transaction, VALID or not, validated or waved through: safety is kept, and a write establishes it. */
  lemma StepSafe(cfg: Config, s: Store, tx: TxRwSet, k: Key)
    requires Accepts(cfg, s, tx) ==> SchemaRecord(cfg, k) !in Touched(Writes(tx))
    ensures SchemaOf(cfg, Step(cfg, s, tx), k) == SchemaOf(cfg, s, k)
    ensures Safe(cfg, s, k) ==> Safe(cfg, Step(cfg, s, tx), k)
    ensures Governed(cfg, s, k) && Accepts(cfg, s, tx) && k in Touched(Writes(tx)) ==> Safe(cfg, Step(cfg, s, tx), k)
    ensures !(Accepts(cfg, s, tx) && k in Touched(Writes(tx))) ==> Get(Step(cfg, s, tx), k) == Get(s, k)
  {
    hide Accepts;
    var ws := Writes(tx);
    if Accepts(cfg, s, tx) {
      SchemaUnchanged(cfg, s, ws, k);
      if k !in Touched(ws) {
        Untouched(s, ws, k);
      } else if Governed(cfg, s, k) {
        AcceptedWriteIsSafe(cfg, s, tx, k);
      }
    }
  }

  /**
   Prefix safety: a key that satisfies its invariant satisfies it after every transaction of every run that does
   not rewrite its schema record.
   */
  lemma {:induction false} PrefixSafety(cfg: Config, s: Store, txs: seq<TxRwSet>, k: Key, n: nat)
    requires n <= |txs| && SchemaKept(cfg, s, txs, k) && Safe(cfg, s, k)
    ensures Safe(cfg, Run(cfg, s, txs[..n]), k)
    decreases |txs|
  {
    hide Step, Safe, Accepts;
    if n > 0 {
      StepSafe(cfg, s, txs[0], k);
      PrefixSafety(cfg, Step(cfg, s, txs[0]), txs[1..], k, n - 1);
      assert txs[..n][1..] == txs[1..][..n - 1];
    }
  }

  /** Once a key has a schema, the first VALID write to it makes it safe for good; until then it is unchanged. */
  lemma {:induction false} SafeOnceWritten(cfg: Config, s: Store, txs: seq<TxRwSet>, k: Key)
    requires SchemaKept(cfg, s, txs, k) && Governed(cfg, s, k)
    ensures if Written(cfg, s, txs, k) then Safe(cfg, Run(cfg, s, txs), k) else Get(Run(cfg, s, txs), k) == Get(s, k)
    decreases |txs|
  {
    hide Step, Safe, Accepts;
    if |txs| > 0 {
      var t := Step(cfg, s, txs[0]);
      StepSafe(cfg, s, txs[0], k);
      SafeOnceWritten(cfg, t, txs[1..], k);
      if Accepts(cfg, s, txs[0]) && k in Touched(Writes(txs[0])) {
        PrefixSafety(cfg, t, txs[1..], k, |txs| - 1);
        assert txs[1..][..|txs| - 1] == txs[1..];
      }
    }
  }

  lemma SafeMeans(cfg: Config, s: Store, k: Key)
    ensures Safe(cfg, s, k) <==>
              && SchemaOf(cfg, s, k).Found? && Current(s, k).Some?
              && var sc, v := SchemaOf(cfg, s, k).schema, Current(s, k).value;
                 (sc.invName == NONNEG && v >= 0) || (sc.invName == RANGE && sc.lo <= v <= sc.hi)
  {
    hide InvariantOf, Holds, SchemaOf, Current;
    if SchemaOf(cfg, s, k).Found? && Current(s, k).Some? {
      InvariantMeans(SchemaOf(cfg, s, k).schema, Current(s, k).value);
    }
  }

  lemma {:induction false} SchemaStays(cfg: Config, s: Store, txs: seq<TxRwSet>, k: Key, n: nat)
    requires n <= |txs| && SchemaKept(cfg, s, txs, k)
    ensures SchemaOf(cfg, Run(cfg, s, txs[..n]), k) == SchemaOf(cfg, s, k)
    decreases |txs|
  {
    hide Step, Accepts, SchemaOf;
    if n > 0 {
      StepSafe(cfg, s, txs[0], k);
      SchemaStays(cfg, Step(cfg, s, txs[0]), txs[1..], k, n - 1);
      assert txs[..n][1..] == txs[1..][..n - 1];
    }
  }

  /** Prefix safety over the record's fields: a RANGE value never leaves lo .. hi, a NONNEG value is never negative. */
  lemma PrefixSafetyInFields(cfg: Config, s: Store, txs: seq<TxRwSet>, k: Key, n: nat, sc: StoredSchema)
    requires n <= |txs| && SchemaKept(cfg, s, txs, k)
    requires SchemaOf(cfg, s, k) == Found(sc) && Current(s, k).Some?
    requires var v := Current(s, k).value; (sc.invName == NONNEG && v >= 0) || (sc.invName == RANGE && sc.lo <= v <= sc.hi)
    ensures var now := Current(Run(cfg, s, txs[..n]), k);
            now.Some? && ((sc.invName == NONNEG && now.value >= 0) || (sc.invName == RANGE && sc.lo <= now.value <= sc.hi))
  {
    hide Safe, SchemaOf, Current, SchemaKept, Run;
    SafeMeans(cfg, s, k);
    PrefixSafety(cfg, s, txs, k, n);
    SchemaStays(cfg, s, txs, k, n);
    SafeMeans(cfg, Run(cfg, s, txs[..n]), k);
  }
}
