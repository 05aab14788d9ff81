/** Two's-complement 64-bit integers and their canonical 8-byte encoding (fabric-core/typeddelta.go). */
module Int64 {
  import opened Prelude

  const MIN_INT64: int := -0x8000_0000_0000_0000
  const MAX_INT64: int := 0x7fff_ffff_ffff_ffff
  const TWO_64: int := 0x1_0000_0000_0000_0000
  const INT64_WIDTH: nat := 8

  type int64 = x: int | -0x8000_0000_0000_0000 <= x <= 0x7fff_ffff_ffff_ffff

  predicate InRange(x: int) {
    MIN_INT64 <= x <= MAX_INT64
  }

  /** What Go's int64 arithmetic leaves of an exact result. */
  function Wrap(x: int): (r: int64)
    ensures InRange(x) ==> r == x
    ensures (x - r) % TWO_64 == 0
  {
    var m := x % TWO_64;
    if m <= MAX_INT64 then m else m - TWO_64
  }

  /** The source detects overflow by looking at the wrapped sum; the contract says that it is never wrong. */
  function AddChecked(a: int64, b: int64): (r: Option<int64>)
    ensures r.Some? <==> InRange(a + b)
    ensures r.Some? ==> r.value == a + b
  {
    var s := Wrap(a + b);
    if (b > 0 && s < a) || (b < 0 && s > a) then None else Some(s)
  }

  function Pow256(n: nat): nat {
    if n == 0 then 1 else 256 * Pow256(n - 1)
  }

  /** The n low bytes of u, most significant first. */
  function PutBE(u: nat, n: nat): (b: Bytes)
    ensures |b| == n
  {
    if n == 0 then [] else PutBE(u / 256, n - 1) + [u % 256]
  }

  function GetBE(b: Bytes): nat {
    if |b| == 0 then 0 else 256 * GetBE(b[..|b| - 1]) + b[|b| - 1]
  }

  lemma {:induction false} GetPutBE(u: nat, n: nat)
    requires u < Pow256(n)
    ensures GetBE(PutBE(u, n)) == u
  {
    if n > 0 {
      GetPutBE(u / 256, n - 1);
      assert PutBE(u, n)[..n - 1] == PutBE(u / 256, n - 1);
    }
  }

  lemma {:induction false} PutGetBE(b: Bytes)
    ensures GetBE(b) < Pow256(|b|)
    ensures PutBE(GetBE(b), |b|) == b
  {
    if |b| > 0 {
      PutGetBE(b[..|b| - 1]);
    }
  }

  function ToUint64(v: int64): nat {
    if v < 0 then v + TWO_64 else v
  }

  /** Eight big-endian bytes; decoding gives the value back. */
  function Encode(v: int64): (b: Bytes)
    ensures |b| == INT64_WIDTH
    ensures Decode(b) == Some(v)
  {
    var b := PutBE(ToUint64(v), INT64_WIDTH);
    assert Pow256(INT64_WIDTH) == TWO_64;
    GetPutBE(ToUint64(v), INT64_WIDTH);
    b
  }

  /** None is the source's ErrBadCanonical. */
  function Decode(b: Bytes): (r: Option<int64>)
    ensures r.Some? <==> |b| == INT64_WIDTH
  {
    if |b| != INT64_WIDTH then None else Some(Wrap(GetBE(b)))
  }

  /** The encoding is canonical: no two byte strings decode to the same value. */
  lemma EncodeDecode(b: Bytes)
    requires |b| == INT64_WIDTH
    ensures Encode(Decode(b).value) == b
  {
    PutGetBE(b);
    assert Pow256(INT64_WIDTH) == TWO_64;
    assert ToUint64(Wrap(GetBE(b))) == GetBE(b);
  }

  /** Two's complement, most significant byte first. */
  lemma EncodeIsBigEndian(v: int64)
    ensures var b := Encode(v);
            && (b[0] as int) * 0x100_0000_0000_0000 + (b[1] as int) * 0x1_0000_0000_0000 + (b[2] as int) * 0x100_0000_0000
               + (b[3] as int) * 0x1_0000_0000 + (b[4] as int) * 0x100_0000 + (b[5] as int) * 0x1_0000 + (b[6] as int) * 0x100 + b[7]
               == if v < 0 then v + 0x1_0000_0000_0000_0000 else v
  {
    assert Pow256(INT64_WIDTH) == TWO_64;
    GetPutBE(ToUint64(v), INT64_WIDTH);
    EightDigits(Encode(v));
  }

  lemma EightDigits(b: Bytes)
    requires |b| == 8
    ensures GetBE(b) == (b[0] as int) * 0x100_0000_0000_0000 + (b[1] as int) * 0x1_0000_0000_0000 + (b[2] as int) * 0x100_0000_0000
                        + (b[3] as int) * 0x1_0000_0000 + (b[4] as int) * 0x100_0000 + (b[5] as int) * 0x1_0000 + (b[6] as int) * 0x100 + b[7]
  {
    hide GetBE;
    GetSnoc(b, 1);
    GetSnoc(b, 2);
    GetSnoc(b, 3);
    GetSnoc(b, 4);
    GetSnoc(b, 5);
    GetSnoc(b, 6);
    GetSnoc(b, 7);
    GetSnoc(b, 8);
    GetNone(b[..0]);
    assert b[..8] == b;
  }

  lemma GetNone(b: Bytes)
    requires |b| == 0
    ensures GetBE(b) == 0
  {
  }

  lemma GetSnoc(b: Bytes, n: nat)
    requires 0 < n <= |b|
    ensures GetBE(b[..n]) == 256 * GetBE(b[..n - 1]) + b[n - 1]
  {
    assert b[..n][..n - 1] == b[..n - 1];
  }

  /** Fills a fresh buffer from its last byte to its first. */
  method MarshalInt64(v: int64) returns (b: array<byte>)
    ensures fresh(b)
    ensures b[..] == Encode(v)
  {
    b := new byte[INT64_WIDTH];
    var u, i := ToUint64(v), INT64_WIDTH;
    while i > 0
      invariant 0 <= i <= INT64_WIDTH
      invariant PutBE(u, i) + b[i..] == Encode(v)
    {
      i := i - 1;
      assert PutBE(u, i + 1) == PutBE(u / 256, i) + [u % 256];
      b[i] := u % 256;
      u := u / 256;
    }
    assert PutBE(u, 0) + b[..] == b[..];
  }
}
