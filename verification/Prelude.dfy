/** Types shared by every module: optional values, results, and Go's bytes and strings. */
module Prelude {
  datatype Option<+T> = None | Some(value: T)

  datatype Result<+T, +E> = Ok(value: T) | Err(error: E)

  type byte = x: int | 0 <= x < 256

  /** Both `[]byte` and `string`: a Go string is a sequence of bytes. */
  type Bytes = seq<byte>

  /** The bytes of an ASCII literal. */
  function Ascii(s: string): (b: Bytes)
    requires forall i :: 0 <= i < |s| ==> s[i] as int < 128
    ensures |b| == |s|
    ensures forall i :: 0 <= i < |s| ==> b[i] == s[i] as int
  {
    seq(|s|, i requires 0 <= i < |s| => s[i] as int)
  }

  /** Equality of whole values, which the prover then does not take apart into sequences of bytes. */
  predicate Same<T(==)>(a: T, b: T) {
    a == b
  }

  ghost predicate Distinct<T>(s: seq<T>) {
    forall i, j :: 0 <= i < j < |s| ==> s[i] != s[j]
  }

  /** `order` lists every element of `elems` exactly once. */
  ghost predicate Enumerates<T>(order: seq<T>, elems: set<T>) {
    && Distinct(order)
    && (forall x :: x in order ==> x in elems)
    && (forall x :: x in elems ==> x in order)
  }

  ghost function Flatten<T>(ss: seq<seq<T>>): seq<T> {
    if |ss| == 0 then [] else ss[0] + Flatten(ss[1..])
  }

  /** Some enumeration of a finite set. */
  ghost function SomeOrder<T>(elems: set<T>): (order: seq<T>)
    ensures Enumerates(order, elems)
  {
    if elems == {} then []
    else
      var x :| x in elems;
      [x] + SomeOrder(elems - {x})
  }

  lemma EnumerateMore<T>(order: seq<T>, elems: set<T>, rest: seq<T>, others: set<T>)
    requires Enumerates(order, elems) && Enumerates(rest, others) && elems !! others
    ensures Enumerates(order + rest, elems + others)
  {
    forall i, j | 0 <= i < j < |order + rest|
      ensures (order + rest)[i] != (order + rest)[j]
    {
      if i < |order| <= j {
        assert order[i] in elems && rest[j - |order|] in others;
      }
    }
  }

  ghost function Restrict<K, V>(m: map<K, V>, ks: set<K>): map<K, V> {
    map k | k in ks && k in m :: m[k]
  }

  lemma StoreOne<K, V>(base: map<K, V>, m: map<K, V>, remaining: set<K>, k: K, before: map<K, V>)
    requires k in remaining && remaining <= m.Keys
    requires before == base + Restrict(m, m.Keys - remaining)
    ensures before[k := m[k]] == base + Restrict(m, m.Keys - (remaining - {k}))
  {
    assert m.Keys - (remaining - {k}) == m.Keys - remaining + {k};
  }

  lemma StoreEnds<K, V>(base: map<K, V>, m: map<K, V>)
    ensures base + Restrict(m, m.Keys - m.Keys) == base
    ensures Restrict(m, m.Keys - {}) == m
  {
  }

  lemma KeyFirst<T>(elems: set<T>, x: T) returns (order: seq<T>)
    requires x in elems
    ensures Enumerates(order, elems) && |order| > 0 && order[0] == x
  {
    order := [x] + SomeOrder(elems - {x});
    EnumerateMore([x], {x}, SomeOrder(elems - {x}), elems - {x});
    assert {x} + (elems - {x}) == elems;
  }

  /** The first element of a sequence, found and taken out of a permutation of it. */
  lemma TakeOut<T>(a: seq<T>, b: seq<T>) returns (i: nat)
    requires |a| > 0 && multiset(a) == multiset(b)
    ensures i < |b| && b[i] == a[0]
    ensures multiset(a[1..]) == multiset(b[..i] + b[i + 1..])
  {
    assert a[0] in multiset(b);
    i :| 0 <= i < |b| && b[i] == a[0];
    assert b == b[..i] + [b[i]] + b[i + 1..];
    assert a == [a[0]] + a[1..];
    calc {
      multiset(a[1..]);
      multiset(a) - multiset{a[0]};
      multiset(b) - multiset{a[0]};
      { assert multiset(b) == multiset(b[..i]) + multiset{b[i]} + multiset(b[i + 1..]); }
      multiset(b[..i]) + multiset(b[i + 1..]);
      multiset(b[..i] + b[i + 1..]);
    }
  }

  lemma SameElements<T>(a: seq<T>, b: seq<T>, x: T)
    requires multiset(a) == multiset(b)
    ensures x in a <==> x in b
  {
    assert x in a <==> x in multiset(a);
    assert x in b <==> x in multiset(b);
  }
}
