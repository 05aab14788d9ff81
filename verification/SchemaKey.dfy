/**
 The storage key of a schema record: a fixed prefix and the data key in base64url without padding
 (section 5 of RFC 4648).
 */
module SchemaKey {
  import opened Prelude

  const SCHEMA_PREFIX: Bytes := Ascii("typeddelta~schema~")

  type Sextet = x: int | 0 <= x < 64

  /** The URL-safe alphabet: A-Z a-z 0-9 - _ */
  function Letter(x: Sextet): (b: byte)
    ensures SextetOf(b) == Some(x)
  {
    if x < 26 then 65 + x
    else if x < 52 then 97 + (x - 26)
    else if x < 62 then 48 + (x - 52)
    else if x == 62 then 45
    else 95
  }

  function SextetOf(b: byte): Option<Sextet> {
    if 65 <= b <= 90 then Some(b - 65)
    else if 97 <= b <= 122 then Some(b - 97 + 26)
    else if 48 <= b <= 57 then Some(b - 48 + 52)
    else if b == 45 then Some(62)
    else if b == 95 then Some(63)
    else None
  }

  /** Three bytes become four letters; one or two left over become two or three. */
  function EncodeBase64(s: Bytes): Bytes {
    if |s| == 0 then []
    else if |s| == 1 then
      [Letter(s[0] / 4), Letter(s[0] % 4 * 16)]
    else if |s| == 2 then
      [Letter(s[0] / 4), Letter(s[0] % 4 * 16 + s[1] / 16), Letter(s[1] % 16 * 4)]
    else
      [Letter(s[0] / 4), Letter(s[0] % 4 * 16 + s[1] / 16), Letter(s[1] % 16 * 4 + s[2] / 64), Letter(s[2] % 64)]
      + EncodeBase64(s[3..])
  }

  function DecodeBase64(t: Bytes): Option<Bytes> {
    if |t| == 0 then Some([])
    else if |t| == 1 then None
    else
      match (SextetOf(t[0]), SextetOf(t[1]))
      case (Some(a), Some(b)) =>
        if |t| == 2 then Some([a * 4 + b / 16])
        else if |t| == 3 then
          match SextetOf(t[2])
          case Some(c) => Some([a * 4 + b / 16, b % 16 * 16 + c / 4])
          case None => None
        else
          (match (SextetOf(t[2]), SextetOf(t[3]), DecodeBase64(t[4..]))
           case (Some(c), Some(d), Some(rest)) => Some([a * 4 + b / 16, b % 16 * 16 + c / 4, c % 4 * 64 + (d as int)] + rest)
           case _ => None)
      case _ => None
  }

  lemma {:induction false} Base64RoundTrip(s: Bytes)
    ensures DecodeBase64(EncodeBase64(s)) == Some(s)
  {
    hide Letter, SextetOf, DecodeBase64;
    if |s| == 0 {
      NothingToDecode();
    } else if |s| == 1 {
      LastByte(s[0]);
      assert s == [s[0]];
    } else if |s| == 2 {
      LastTwoBytes(s[0], s[1]);
      assert s == [s[0], s[1]];
    } else if |s| >= 3 {
      Base64RoundTrip(s[3..]);
      ChunkRoundTrip(s[0], s[1], s[2], EncodeBase64(s[3..]));
      assert s == [s[0], s[1], s[2]] + s[3..];
    }
  }

  lemma NothingToDecode()
    ensures DecodeBase64([]) == Some([])
  {
  }

  lemma LastByte(x: byte)
    ensures DecodeBase64([Letter(x / 4), Letter(x % 4 * 16)]) == Some([x])
  {
  }

  lemma LastTwoBytes(x: byte, y: byte)
    ensures DecodeBase64([Letter(x / 4), Letter(x % 4 * 16 + y / 16), Letter(y % 16 * 4)]) == Some([x, y])
  {
  }

  lemma ChunkRoundTrip(x: byte, y: byte, z: byte, t: Bytes)
    requires DecodeBase64(t).Some?
    ensures DecodeBase64([Letter(x / 4), Letter(x % 4 * 16 + y / 16), Letter(y % 16 * 4 + z / 64), Letter(z % 64)] + t)
            == Some([x, y, z] + DecodeBase64(t).value)
  {
    hide Letter, SextetOf;
    var u := [Letter(x / 4), Letter(x % 4 * 16 + y / 16), Letter(y % 16 * 4 + z / 64), Letter(z % 64)] + t;
    assert u[4..] == t;
    ThreeBytes(x, y, z);
  }

  /** The bits of three bytes, cut into four groups of six and put together again. */
  lemma ThreeBytes(x: byte, y: byte, z: byte)
    ensures var b := x % 4 * 16 + y / 16;
            var c := y % 16 * 4 + z / 64;
            x / 4 * 4 + b / 16 == x && b % 16 * 16 + c / 4 == y && c % 4 * 64 + z % 64 == z
  {
    var b := x % 4 * 16 + y / 16;
    var c := y % 16 * 4 + z / 64;
    assert b / 16 == x % 4 && b % 16 == y / 16;
    assert c / 4 == y % 16 && c % 4 == z / 64;
  }

  /** The alphabet of section 5 of RFC 4648. */
  lemma Alphabet(x: Sextet)
    ensures Letter(x) == (if x < 26 then 'A' as int + x else if x < 52 then 'a' as int + (x - 26)
                          else if x < 62 then '0' as int + (x - 52) else if x == 62 then '-' as int else '_' as int)
  {
  }

  /** The bits of the input, most significant first, in groups of six, the last group filled up with zeros. */
  lemma EncodeBits(s: Bytes)
    requires |s| > 0
    ensures var t := EncodeBase64(s);
            if |s| == 1 then |t| == 2 && Digit(s, 0) * 16 == Group(t, 0) * 64 + Group(t, 1)
            else if |s| == 2 then |t| == 3 && Digit(s, 0) * 1024 + Digit(s, 1) * 4 == Group(t, 0) * 4096 + Group(t, 1) * 64 + Group(t, 2)
            else
              && |t| >= 4 && t[4..] == EncodeBase64(s[3..])
              && Digit(s, 0) * 65536 + Digit(s, 1) * 256 + Digit(s, 2) == Group(t, 0) * 262144 + Group(t, 1) * 4096 + Group(t, 2) * 64 + Group(t, 3)
  {
    hide Letter, SextetOf;
  }

  function Digit(s: Bytes, i: nat): int
    requires i < |s|
  {
    s[i]
  }

  /** The six bits that a letter stands for. */
  function Group(t: Bytes, i: nat): int
    requires i < |t|
  {
    if SextetOf(t[i]).Some? then SextetOf(t[i]).value as int else 0
  }

  function SchemaStorageKey(dataKey: Bytes): Bytes {
    SCHEMA_PREFIX + EncodeBase64(dataKey)
  }

  /** The data key that a schema record governs, recovered from its storage key. */
  function GovernedKey(storageKey: Bytes): Option<Bytes> {
    if SCHEMA_PREFIX <= storageKey then DecodeBase64(storageKey[|SCHEMA_PREFIX|..]) else None
  }

  /** Four letters for three bytes, without padding, all of them from the alphabet. */
  lemma {:induction false} EncodeLetters(s: Bytes)
    ensures |EncodeBase64(s)| == (4 * |s| + 2) / 3
    ensures forall i :: 0 <= i < |EncodeBase64(s)| ==> SextetOf(EncodeBase64(s)[i]).Some?
  {
    hide Letter, SextetOf;
    if |s| >= 3 {
      EncodeLetters(s[3..]);
      assert |s[3..]| == |s| - 3;
    }
  }

  /** A storage key is the prefix followed by letters of the alphabet, whatever bytes the data key has. */
  lemma StorageKeyIsPrintable(dataKey: Bytes)
    ensures var k := SchemaStorageKey(dataKey);
            && Ascii("typeddelta~schema~") <= k && |k| == 18 + (4 * |dataKey| + 2) / 3
            && forall i :: 18 <= i < |k| ==> SextetOf(k[i]).Some?
  {
    hide SextetOf, EncodeBase64;
    EncodeLetters(dataKey);
    var k := SchemaStorageKey(dataKey);
    assert |SCHEMA_PREFIX| == 18;
    assert forall i :: 18 <= i < |k| ==> k[i] == EncodeBase64(dataKey)[i - 18];
  }

  /** A schema record governs one data key and no other, and its key is reserved. */
  lemma SchemaKeyRoundTrip(dataKey: Bytes)
    ensures ReservedKey(SchemaStorageKey(dataKey))
    ensures GovernedKey(SchemaStorageKey(dataKey)) == Some(dataKey)
  {
    Base64RoundTrip(dataKey);
    assert SchemaStorageKey(dataKey)[|SCHEMA_PREFIX|..] == EncodeBase64(dataKey);
  }

  lemma SchemaKeyInjective(a: Bytes, b: Bytes)
    requires SchemaStorageKey(a) == SchemaStorageKey(b)
    ensures a == b
  {
    SchemaKeyRoundTrip(a);
    SchemaKeyRoundTrip(b);
  }

  /** Keys the chaincode refuses to use for data. */
  predicate ReservedKey(key: Bytes) {
    SCHEMA_PREFIX <= key
  }
}
