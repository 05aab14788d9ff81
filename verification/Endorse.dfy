/** The endorsement-time helper of fabric-core/endorse.go: descriptors and the strict stub. */
module Endorse {
  import opened Prelude
  import opened Int64
  import opened TypedDelta
  import opened RwSet
  import Shim
  import History

  datatype EndorseError = ErrNegativeArg | ErrUnknownOp | ErrReadBeforeDelta | ErrPlainAndDelta | ErrOpNotAllowed

  /** A descriptor that commit reads back as the op and amount it was built from. */
  function BuildDescriptor(typeId: Bytes, op: Op, arg: int64, schemaVersion: Bytes): (r: Result<Descriptor, EndorseError>)
    ensures r.Ok? <==> ProperDelta(Delta(op, arg))
    ensures r.Ok? ==> ToDelta(r.value) == Ok(Delta(op, arg))
    ensures r.Ok? ==> r.value.typeId == typeId && r.value.schemaVersion == schemaVersion
    ensures r.Err? ==> r.error == if arg < 0 then ErrNegativeArg else ErrUnknownOp
  {
    if arg < 0 then Err(ErrNegativeArg)
    else if op == OP_ADD then Ok(Descriptor(typeId, ADD, Encode(arg), schemaVersion))
    else if op == OP_SUB then Ok(Descriptor(typeId, SUB, Encode(arg), schemaVersion))
    else Err(ErrUnknownOp)
  }

  /** All four readers of a delta agree on it: the peer's builder, the shim's builder, commit and history. */
  lemma DescriptorPipeline(typeId: Bytes, d: Delta, version: Bytes)
    requires ProperDelta(d)
    ensures var built := BuildDescriptor(typeId, d.op, d.arg, version);
            && built.Ok?
            && Shim.BuildShimDelta(typeId, if d.op == OP_ADD then ADD else SUB, Encode(d.arg), version) == Some(built.value)
            && ToDelta(built.value) == Ok(d)
            && History.DeltaFromDescriptor(built.value) == Some(d)
  {
    hide Encode, Decode;
  }

  /** Equal deltas have equal descriptors and conversely: the bytes the endorsers sign determine the delta. */
  lemma DescriptorInjective(typeId: Bytes, version: Bytes, a: Delta, b: Delta)
    requires ProperDelta(a) && ProperDelta(b)
    ensures BuildDescriptor(typeId, a.op, a.arg, version) == BuildDescriptor(typeId, b.op, b.arg, version) <==> a == b
  {
    var da := BuildDescriptor(typeId, a.op, a.arg, version);
    assert ToDelta(da.value) == Ok(a);
  }

  datatype DeltaWrite = DeltaWrite(key: Bytes, delta: Descriptor)

  class Stub {
    const typeId: Bytes
    const schemaVersion: Bytes
    const allowedOps: set<Op>
    var didRead: bool
    var plainKeys: set<Bytes>
    var deltaKeys: set<Bytes>
    var writes: seq<DeltaWrite>

    /** No key is both plain and delta, and every recorded write is an allowed, proper delta on a delta key. */
    ghost predicate Valid()
      reads this
    {
      && plainKeys !! deltaKeys
      && forall i :: 0 <= i < |writes| ==>
           && writes[i].key in deltaKeys
           && ToDelta(writes[i].delta).Ok?
           && ProperDelta(ToDelta(writes[i].delta).value)
           && ToDelta(writes[i].delta).value.op in allowedOps
    }

    constructor (typeId: Bytes, schemaVersion: Bytes, allowed: seq<Op>)
      ensures Valid() && !didRead && plainKeys == {} && deltaKeys == {} && writes == []
      ensures this.typeId == typeId && this.schemaVersion == schemaVersion
      ensures forall o :: o in allowedOps <==> o in allowed
    {
      var m: set<Op> := {};
      for i := 0 to |allowed|
        invariant forall o :: o in m <==> o in allowed[..i]
      {
        m := m + {allowed[i]};
      }
      assert allowed[..|allowed|] == allowed;
      this.typeId, this.schemaVersion, allowedOps := typeId, schemaVersion, m;
      didRead, plainKeys, deltaKeys, writes := false, {}, {}, [];
    }

    /** `GetState`, `RangeQuery` and `RichQuery` alike. */
    method Read()
      requires Valid()
      modifies this`didRead
      ensures Valid() && didRead
    {
      didRead := true;
    }

    method PutState(key: Bytes) returns (err: Option<EndorseError>)
      requires Valid()
      modifies this`plainKeys
      ensures Valid()
      ensures err == if key in deltaKeys then Some(ErrPlainAndDelta) else None
      ensures plainKeys == if err.None? then old(plainKeys) + {key} else old(plainKeys)
    {
      if key in deltaKeys {
        return Some(ErrPlainAndDelta);
      }
      plainKeys := plainKeys + {key};
      err := None;
    }

    /** Accepted only before any read, on a key without a plain write, with an allowed op and a proper amount. */
    method PutDelta(key: Bytes, op: Op, arg: int64) returns (err: Option<EndorseError>)
      requires Valid()
      modifies this`writes, this`deltaKeys
      ensures Valid()
      ensures err.None? <==> !didRead && key !in plainKeys && op in allowedOps && ProperDelta(Delta(op, arg))
      ensures didRead ==> err == Some(ErrReadBeforeDelta)
      ensures !didRead && key in plainKeys ==> err == Some(ErrPlainAndDelta)
      ensures !didRead && key !in plainKeys && op !in allowedOps ==> err == Some(ErrOpNotAllowed)
      ensures err.Some? ==> writes == old(writes) && deltaKeys == old(deltaKeys)
      ensures err.None? ==> deltaKeys == old(deltaKeys) + {key} && |writes| == |old(writes)| + 1 && old(writes) <= writes
      ensures err.None? ==>
                var w := writes[|old(writes)|];
                w.key == key && ToDelta(w.delta) == Ok(Delta(op, arg)) && w.delta.typeId == typeId && w.delta.schemaVersion == schemaVersion
    {
      if didRead {
        return Some(ErrReadBeforeDelta);
      }
      if key in plainKeys {
        return Some(ErrPlainAndDelta);
      }
      if op !in allowedOps {
        return Some(ErrOpNotAllowed);
      }
      var d := BuildDescriptor(typeId, op, arg, schemaVersion);
      if d.Err? {
        return Some(d.error);
      }
      writes := writes + [DeltaWrite(key, d.value)];
      deltaKeys := deltaKeys + {key};
      err := None;
    }
  }
}
