/**
 Composite keys and the ranges that partial composite keys select (shim/stub.go). Strings are bytes, compared byte
 by byte as the ledger sorts them; their UTF-8 reading follows sections 3 and 4 of RFC 3629.
 */
module CompositeKeys {
  import opened Prelude

  // ---------- UTF-8 ----------

  /** A Unicode scalar value. */
  type Rune = r: int | 0 <= r <= 0x10FFFF && !(0xD800 <= r <= 0xDFFF)

  const MIN_RUNE: Rune := 0
  const MAX_RUNE: Rune := 0x10FFFF

  predicate Tail(b: byte) {
    0x80 <= b <= 0xBF
  }

  /** The k-th group of six bits. */
  function Sextet(r: nat, k: nat): (d: nat)
    requires k < 4
    ensures d < 64
  {
    if k == 0 then r % 64 else if k == 1 then r / 64 % 64 else if k == 2 then r / 4096 % 64 else r / 262144 % 64
  }

  function Value(a: nat, b: nat, c: nat, d: nat): nat {
    a * 262144 + b * 4096 + c * 64 + d
  }

  lemma SextetsOf(a: nat, b: nat, c: nat, d: nat)
    requires a < 64 && b < 64 && c < 64 && d < 64
    ensures Sextet(Value(a, b, c, d), 3) == a && Sextet(Value(a, b, c, d), 2) == b
    ensures Sextet(Value(a, b, c, d), 1) == c && Sextet(Value(a, b, c, d), 0) == d
  {
    var x := Value(a, b, c, d);
    assert x / 64 == a * 4096 + b * 64 + c;
    assert x / 4096 == a * 64 + b;
    assert x / 262144 == a;
  }

  lemma ValueOf(r: Rune)
    ensures Value(Sextet(r, 3), Sextet(r, 2), Sextet(r, 1), Sextet(r, 0)) == r
  {
    var high := r / 64;
    assert r == 64 * high + Sextet(r, 0);
    assert r / 4096 == high / 64 && high == 64 * (high / 64) + Sextet(r, 1);
    assert r / 262144 == high / 64 / 64 && high / 64 == 64 * (high / 64 / 64) + Sextet(r, 2);
    assert Sextet(r, 3) == high / 64 / 64;
  }

  function EncodeRune(r: Rune): (b: Bytes)
    ensures 1 <= |b| <= 4
  {
    if r < 0x80 then [r]
    else if r < 0x800 then ValueOf(r); [0xC0 + Sextet(r, 1), 0x80 + Sextet(r, 0)]
    else if r < 0x10000 then ValueOf(r); [0xE0 + Sextet(r, 2), 0x80 + Sextet(r, 1), 0x80 + Sextet(r, 0)]
    else ValueOf(r); [0xF0 + Sextet(r, 3), 0x80 + Sextet(r, 2), 0x80 + Sextet(r, 1), 0x80 + Sextet(r, 0)]
  }

  datatype Decoded = Decoded(rune: Rune, width: nat)

  /** The rune a string starts with: the byte ranges of Go's decoder, which admit no overlong form and no surrogate. */
  function DecodeRune(s: Bytes): (r: Option<Decoded>)
    ensures r.Some? ==> 1 <= r.value.width <= |s|
  {
    if |s| == 0 then None
    else if s[0] < 0x80 then Some(Decoded(s[0], 1))
    else if 0xC2 <= s[0] <= 0xDF && |s| >= 2 && Tail(s[1]) then
      Some(Decoded(Value(0, 0, s[0] - 0xC0, s[1] - 0x80), 2))
    else if 0xE0 <= s[0] <= 0xEF && |s| >= 3 && Tail(s[1]) && Tail(s[2])
            && (s[0] == 0xE0 ==> s[1] >= 0xA0) && (s[0] == 0xED ==> s[1] <= 0x9F) then
      Some(Decoded(Value(0, s[0] - 0xE0, s[1] - 0x80, s[2] - 0x80), 3))
    else if 0xF0 <= s[0] <= 0xF4 && |s| >= 4 && Tail(s[1]) && Tail(s[2]) && Tail(s[3])
            && (s[0] == 0xF0 ==> s[1] >= 0x90) && (s[0] == 0xF4 ==> s[1] <= 0x8F) then
      Some(Decoded(Value(s[0] - 0xF0, s[1] - 0x80, s[2] - 0x80, s[3] - 0x80), 4))
    else None
  }

  lemma DecodeOfEncode(r: Rune, rest: Bytes)
    ensures DecodeRune(EncodeRune(r) + rest) == Some(Decoded(r, |EncodeRune(r)|))
  {
    hide Sextet;
    ValueOf(r);
  }

  lemma EncodeOfDecode(s: Bytes)
    requires DecodeRune(s).Some?
    ensures |EncodeRune(DecodeRune(s).value.rune)| == DecodeRune(s).value.width
    ensures s == EncodeRune(DecodeRune(s).value.rune) + s[DecodeRune(s).value.width..]
  {
    hide Sextet;
    var d := DecodeRune(s).value;
    if d.width == 2 {
      SextetsOf(0, 0, s[0] - 0xC0, s[1] - 0x80);
    } else if d.width == 3 {
      SextetsOf(0, s[0] - 0xE0, s[1] - 0x80, s[2] - 0x80);
    } else if d.width == 4 {
      SextetsOf(s[0] - 0xF0, s[1] - 0x80, s[2] - 0x80, s[3] - 0x80);
    }
    assert s[..d.width] == EncodeRune(d.rune);
  }

  function EncodeString(rs: seq<Rune>): Bytes {
    if |rs| == 0 then [] else EncodeRune(rs[0]) + EncodeString(rs[1..])
  }

  /** The runes of a string, or None where `utf8.ValidString` says no. */
  function Runes(s: Bytes): Option<seq<Rune>> {
    if |s| == 0 then Some([])
    else
      match DecodeRune(s)
      case None => None
      case Some(d) =>
        match Runes(s[d.width..])
        case None => None
        case Some(rest) => Some([d.rune] + rest)
  }

  /** Decoding accepts exactly the encodings of rune sequences, each in one way. */
  lemma {:induction false} RunesExactly(s: Bytes, rs: seq<Rune>)
    ensures Runes(s) == Some(rs) <==> s == EncodeString(rs)
    decreases |s| + |rs|
  {
    if |s| == 0 {
    } else {
      if Runes(s) == Some(rs) {
        RunesExactly(s[DecodeRune(s).value.width..], rs[1..]);
        EncodeOfDecode(s);
      }
      if s == EncodeString(rs) {
        var rest := EncodeString(rs[1..]);
        assert s == EncodeRune(rs[0]) + rest;
        DecodeOfEncode(rs[0], rest);
        RunesExactly(rest, rs[1..]);
        assert s[|EncodeRune(rs[0])|..] == rest;
        assert [rs[0]] + rs[1..] == rs;
      }
    }
  }

  // ---------- the order of keys ----------

  predicate Less(a: Bytes, b: Bytes) {
    |b| > 0 && (|a| == 0 || a[0] < b[0] || (a[0] == b[0] && Less(a[1..], b[1..])))
  }

  /** A range scan returns the keys from `low`, included, up to `high`, excluded. */
  predicate InRange(k: Bytes, low: Bytes, high: Bytes) {
    !Less(k, low) && Less(k, high)
  }

  /** Bytes order strings as their first runes do. */
  lemma RuneOrder(a: Rune, b: Rune, x: Bytes, y: Bytes)
    requires a < b
    ensures Less(EncodeRune(a) + x, EncodeRune(b) + y)
  {
    var i := FirstDifference(a, b);
    LessAt(EncodeRune(a) + x, EncodeRune(b) + y, i);
  }

  lemma FirstDifference(a: Rune, b: Rune) returns (i: nat)
    requires a < b
    ensures i < |EncodeRune(a)| && i < |EncodeRune(b)|
    ensures EncodeRune(a)[i] < EncodeRune(b)[i] && EncodeRune(a)[..i] == EncodeRune(b)[..i]
  {
    hide Sextet;
    ValueOf(a);
    ValueOf(b);
    var s, t := EncodeRune(a), EncodeRune(b);
    i := if s[0] != t[0] then 0 else if s[1] != t[1] then 1 else if s[2] != t[2] then 2 else 3;
  }

  lemma {:induction false} LessAt(a: Bytes, b: Bytes, i: nat)
    requires i < |a| && i < |b| && a[i] < b[i]
    requires a[..i] == b[..i]
    ensures Less(a, b) && !Less(b, a)
  {
    if i > 0 {
      assert a[0] == a[..i][0] && b[0] == b[..i][0];
      assert a[1..][..i - 1] == a[..i][1..] && b[1..][..i - 1] == b[..i][1..];
      LessAt(a[1..], b[1..], i - 1);
    }
  }

  lemma {:induction false} CommonPrefix(p: Bytes, a: Bytes, b: Bytes)
    ensures Less(p + a, p + b) <==> Less(a, b)
  {
    if |p| == 0 {
      assert p + a == a && p + b == b;
    } else {
      CommonPrefix(p[1..], a, b);
      assert (p + a)[1..] == p[1..] + a && (p + b)[1..] == p[1..] + b;
    }
  }

  /** A key between p and an extension of p starts with p. */
  lemma {:induction false} BetweenExtends(p: Bytes, q: Bytes, k: Bytes)
    requires !Less(k, p) && Less(k, p + q)
    ensures p <= k
  {
    if |p| > 0 {
      assert (p + q)[1..] == p[1..] + q;
      assert |k| > 0 && k[0] == p[0];
      BetweenExtends(p[1..], q, k[1..]);
      assert k == [k[0]] + k[1..] && p == [p[0]] + p[1..];
    }
  }

  lemma {:induction false} NotBelowPrefix(p: Bytes, a: Bytes)
    ensures !Less(p + a, p)
  {
    CommonPrefix(p, a, []);
    assert p + [] == p;
  }

  // ---------- attributes ----------

  /** A valid UTF-8 string without U+0000 and U+10FFFF. */
  predicate Attribute(s: Bytes) {
    Runes(s).Some? && MIN_RUNE !in Runes(s).value && MAX_RUNE !in Runes(s).value
  }

  predicate Attributes(cs: seq<Bytes>) {
    forall i :: 0 <= i < |cs| ==> Attribute(cs[i])
  }

  /** An attribute is the encoding of runes other than U+0000 and U+10FFFF, and nothing else is refused. */
  lemma AttributeExactly(s: Bytes)
    ensures Attribute(s) <==> exists rs :: s == EncodeString(rs) && 0 !in rs && 0x10FFFF !in rs
  {
    hide Runes, EncodeString;
    if Runes(s).Some? {
      RunesExactly(s, Runes(s).value);
    }
    forall rs | s == EncodeString(rs) ensures Runes(s) == Some(rs) {
      RunesExactly(s, rs);
    }
  }

  lemma AttributeStep(s: Bytes)
    requires |s| > 0 && Runes(s).Some?
    ensures DecodeRune(s).Some? && Runes(s[DecodeRune(s).value.width..]).Some?
    ensures var d := DecodeRune(s).value;
            Attribute(s) <==> d.rune != MIN_RUNE && d.rune != MAX_RUNE && Attribute(s[d.width..])
  {
    hide DecodeRune;
    var d := DecodeRune(s).value;
    assert Runes(s).value == [d.rune] + Runes(s[d.width..]).value;
  }

  method ValidateCompositeKeyAttribute(s: Bytes) returns (ok: bool)
    ensures ok <==> Attribute(s)
  {
    hide DecodeRune;
    if Runes(s).None? {
      return false;
    }
    var index := 0;
    assert s[0..] == s;
    while index < |s|
      invariant index <= |s| && Runes(s[index..]).Some?
      invariant Attribute(s[index..]) <==> Attribute(s)
    {
      AttributeStep(s[index..]);
      var d := DecodeRune(s[index..]).value;
      assert s[index..][d.width..] == s[index + d.width..];
      if d.rune == MIN_RUNE || d.rune == MAX_RUNE {
        return false;
      }
      index := index + d.width;
    }
    ok := true;
  }

  predicate NulFree(s: Bytes) {
    forall i :: 0 <= i < |s| ==> s[i] != 0
  }

  lemma NulFreeSnoc(s: Bytes, b: byte)
    ensures NulFree(s + [b]) <==> NulFree(s) && b != 0
  {
    assert (s + [b])[|s|] == b;
    assert forall i :: 0 <= i < |s| ==> s[i] == (s + [b])[i];
  }

  /** In UTF-8 a zero byte is always the rune zero. */
  lemma {:induction false} AttributeIsNulFree(s: Bytes)
    requires Attribute(s)
    ensures NulFree(s)
  {
    if |s| > 0 {
      var d := DecodeRune(s).value;
      var rest := s[d.width..];
      AttributeStep(s);
      AttributeIsNulFree(rest);
      forall i | 0 <= i < |s| ensures s[i] != 0 {
        if i >= d.width {
          assert s[i] == rest[i - d.width];
        }
      }
    }
  }

  lemma NulBelowMax(rest: Bytes)
    ensures Less([0] + rest, EncodeRune(MAX_RUNE))
  {
    assert EncodeRune(MAX_RUNE)[0] >= 0xF0;
  }

  /** What follows a partial key in a composite key sorts before U+10FFFF. */
  lemma AttributeBelowMax(s: Bytes, rest: Bytes)
    requires Attribute(s)
    ensures Less(s + [0] + rest, EncodeRune(MAX_RUNE))
  {
    hide EncodeRune, DecodeRune, Less;
    var max := EncodeRune(MAX_RUNE);
    assert max + [] == max;
    if |s| == 0 {
      assert s + [0] + rest == [0] + rest;
      NulBelowMax(rest);
    } else {
      var d := DecodeRune(s).value;
      assert Runes(s).value[0] == d.rune;
      EncodeOfDecode(s);
      RuneOrder(d.rune, MAX_RUNE, s[d.width..] + [0] + rest, []);
      assert EncodeRune(d.rune) + (s[d.width..] + [0] + rest) == s + [0] + rest;
    }
  }

  // ---------- building and splitting ----------

  /** Every component followed by a NUL. */
  function Joined(cs: seq<Bytes>): Bytes {
    if |cs| == 0 then [] else cs[0] + [0] + Joined(cs[1..])
  }

  /** The key of an object type and its attributes, given as one list. */
  function CompositeKey(cs: seq<Bytes>): Bytes {
    [0] + Joined(cs)
  }

  method CreateCompositeKey(objectType: Bytes, attributes: seq<Bytes>) returns (r: Option<Bytes>)
    ensures r.Some? <==> Attributes([objectType] + attributes)
    ensures r.Some? ==> r.value == CompositeKey([objectType] + attributes)
    ensures r.Some? ==> [0] + objectType + [0] <= r.value
  {
    var all := [objectType] + attributes;
    assert all[0] == objectType && all[1..] == attributes;
    var ok := ValidateCompositeKeyAttribute(objectType);
    if !ok {
      return None;
    }
    var ck := [0] + objectType + [0];
    for i := 0 to |attributes|
      invariant Attributes(all[..i + 1])
      invariant ck + Joined(attributes[i..]) == CompositeKey(all)
    {
      assert all[i + 1] == attributes[i];
      ok := ValidateCompositeKeyAttribute(attributes[i]);
      if !ok {
        return None;
      }
      assert all[..i + 2] == all[..i + 1] + [attributes[i]];
      assert attributes[i..][1..] == attributes[i + 1..];
      ck := ck + (attributes[i] + [0]);
    }
    assert all[..|attributes| + 1] == all;
    assert ck + Joined([]) == ck;
    assert CompositeKey(all) == [0] + objectType + [0] + Joined(all[1..]);
    return Some(ck);
  }

  /** The NUL-terminated components of s, of which `cur` has been read; an unterminated tail is dropped. */
  function Components(cur: Bytes, s: Bytes): seq<Bytes>
    decreases |s|
  {
    if |s| == 0 then []
    else if s[0] == 0 then [cur] + Components([], s[1..])
    else Components(cur + [s[0]], s[1..])
  }

  /** None is the index panic on a key without a component. */
  method SplitCompositeKey(compositeKey: Bytes) returns (r: Option<(Bytes, seq<Bytes>)>)
    ensures r.None? <==> |compositeKey| == 0 || NulFree(compositeKey[1..])
    ensures r.Some? ==> [r.value.0] + r.value.1 == Components([], compositeKey[1..])
  {
    var componentIndex, i := 1, 1;
    var components: seq<Bytes> := [];
    if |compositeKey| == 0 {
      return None;
    }
    ghost var body := compositeKey[1..];
    assert compositeKey[1..1] == [];
    while i < |compositeKey|
      invariant 1 <= componentIndex <= i <= |compositeKey|
      invariant components + Components(compositeKey[componentIndex..i], compositeKey[i..]) == Components([], body)
      invariant |components| == 0 <==> NulFree(compositeKey[1..i])
    {
      assert compositeKey[i..][1..] == compositeKey[i + 1..];
      assert compositeKey[1..i + 1] == compositeKey[1..i] + [compositeKey[i]];
      if compositeKey[i] == 0 {
        NulFreeSnoc(compositeKey[1..i], compositeKey[i]);
        components := components + [compositeKey[componentIndex..i]];
        componentIndex := i + 1;
        assert compositeKey[componentIndex..i + 1] == [];
      } else {
        assert compositeKey[componentIndex..i + 1] == compositeKey[componentIndex..i] + [compositeKey[i]];
        NulFreeSnoc(compositeKey[1..i], compositeKey[i]);
      }
      i := i + 1;
    }
    assert compositeKey[1..i] == body;
    if |components| == 0 {
      return None;
    }
    return Some((components[0], components[1..]));
  }

  lemma {:induction false} ReadComponent(cur: Bytes, c: Bytes, rest: Bytes)
    requires NulFree(c)
    ensures Components(cur, c + [0] + rest) == [cur + c] + Components([], rest)
    decreases |c|
  {
    var s := c + [0] + rest;
    if |c| == 0 {
      assert s[1..] == rest && cur + c == cur;
    } else {
      assert NulFree(c[1..]);
      ReadComponent(cur + [c[0]], c[1..], rest);
      assert s[1..] == c[1..] + [0] + rest;
      assert cur + [c[0]] + c[1..] == cur + c;
    }
  }

  /** Splitting what was built gives the components back. */
  lemma {:induction false} SplitOfJoined(cs: seq<Bytes>)
    requires forall i :: 0 <= i < |cs| ==> NulFree(cs[i])
    ensures Components([], Joined(cs)) == cs
  {
    if |cs| > 0 {
      ReadComponent([], cs[0], Joined(cs[1..]));
      SplitOfJoined(cs[1..]);
      assert [] + cs[0] == cs[0];
    }
  }

  /** Building what was split gives every NUL-terminated key back. */
  lemma {:induction false} JoinedOfSplit(cur: Bytes, s: Bytes)
    requires |s| > 0 && s[|s| - 1] == 0
    ensures Joined(Components(cur, s)) == cur + s
    decreases |s|
  {
    if s[0] == 0 {
      if |s| == 1 {
        assert Components([], s[1..]) == [];
        assert s == [0];
        assert Joined([cur]) == cur + [0] + Joined([cur][1..]);
      } else {
        JoinedOfSplit([], s[1..]);
        var cs := Components(cur, s);
        assert cs[1..] == Components([], s[1..]);
        assert s == [0] + s[1..];
        assert Joined(cs) == cur + [0] + s[1..];
      }
    } else {
      JoinedOfSplit(cur + [s[0]], s[1..]);
      assert cur + [s[0]] + s[1..] == cur + s;
    }
  }

  lemma AttributesAreNulFree(cs: seq<Bytes>)
    requires Attributes(cs)
    ensures forall i :: 0 <= i < |cs| ==> NulFree(cs[i])
  {
    forall i | 0 <= i < |cs| ensures NulFree(cs[i]) {
      AttributeIsNulFree(cs[i]);
    }
  }

  /** Splitting a created key neither panics nor loses anything, for every list that creation accepts. */
  lemma CreateThenSplit(objectType: Bytes, attributes: seq<Bytes>)
    requires Attributes([objectType] + attributes)
    ensures var body := CompositeKey([objectType] + attributes)[1..];
            !NulFree(body) && Components([], body) == [objectType] + attributes
  {
    var all := [objectType] + attributes;
    AttributesAreNulFree(all);
    SplitOfJoined(all);
    assert CompositeKey(all)[1..] == Joined(all);
    assert Joined(all)[|objectType|] == 0 by {
      assert all[0] == objectType;
    }
  }

  lemma CreationInjective(cs: seq<Bytes>, ds: seq<Bytes>)
    requires Attributes(cs) && Attributes(ds)
    ensures CompositeKey(cs) == CompositeKey(ds) <==> cs == ds
  {
    if CompositeKey(cs) == CompositeKey(ds) {
      assert Joined(cs) == CompositeKey(cs)[1..] == Joined(ds);
      AttributesAreNulFree(cs);
      AttributesAreNulFree(ds);
      SplitOfJoined(cs);
      SplitOfJoined(ds);
    }
  }

  // ---------- partial composite keys ----------

  lemma ConcatAssoc(a: Bytes, b: Bytes, c: Bytes)
    ensures a + (b + c) == a + b + c
  {
  }

  lemma {:induction false} JoinedConcat(cs: seq<Bytes>, ds: seq<Bytes>)
    ensures Joined(cs + ds) == Joined(cs) + Joined(ds)
  {
    if |cs| == 0 {
      assert cs + ds == ds;
    } else {
      JoinedConcat(cs[1..], ds);
      var all := cs + ds;
      assert all[0] == cs[0] && all[1..] == cs[1..] + ds;
      ConcatAssoc(cs[0] + [0], Joined(cs[1..]), Joined(ds));
    }
  }

  /** The components of a prefix that ends with a NUL are a prefix of the components. */
  lemma {:induction false} SplitConcat(cs: seq<Bytes>, rest: Bytes)
    requires forall i :: 0 <= i < |cs| ==> NulFree(cs[i])
    ensures Components([], Joined(cs) + rest) == cs + Components([], rest)
  {
    if |cs| == 0 {
      assert Joined(cs) + rest == rest;
    } else {
      ReadComponent([], cs[0], Joined(cs[1..]) + rest);
      SplitConcat(cs[1..], rest);
      assert Joined(cs) + rest == cs[0] + [0] + (Joined(cs[1..]) + rest);
      assert [] + cs[0] == cs[0];
    }
  }

  function RangeEnd(start: Bytes): Bytes {
    start + EncodeRune(MAX_RUNE)
  }

  /** Every composite key that extends the partial key lies in its range. */
  lemma ExtensionInRange(cs: seq<Bytes>, ds: seq<Bytes>)
    requires Attributes(ds) && cs <= ds
    ensures InRange(CompositeKey(ds), CompositeKey(cs), RangeEnd(CompositeKey(cs)))
  {
    var more := ds[|cs|..];
    assert ds == cs + more;
    JoinedConcat(cs, more);
    var start := CompositeKey(cs);
    assert CompositeKey(ds) == start + Joined(more);
    NotBelowPrefix(start, Joined(more));
    CommonPrefix(start, Joined(more), EncodeRune(MAX_RUNE));
    if |more| > 0 {
      assert more[0] == ds[|cs|];
      AttributeBelowMax(more[0], Joined(more[1..]));
    }
  }

  /** And no other composite key does. */
  lemma InRangeExtends(cs: seq<Bytes>, ds: seq<Bytes>)
    requires Attributes(cs) && Attributes(ds)
    requires InRange(CompositeKey(ds), CompositeKey(cs), RangeEnd(CompositeKey(cs)))
    ensures cs <= ds
  {
    var start, key := CompositeKey(cs), CompositeKey(ds);
    BetweenExtends(start, EncodeRune(MAX_RUNE), key);
    var rest := key[|start|..];
    assert key == start + rest;
    assert Joined(ds) == key[1..] == Joined(cs) + rest;
    AttributesAreNulFree(cs);
    AttributesAreNulFree(ds);
    SplitOfJoined(ds);
    SplitConcat(cs, rest);
  }

  lemma PartialKeyRange(cs: seq<Bytes>, ds: seq<Bytes>)
    requires Attributes(cs) && Attributes(ds)
    ensures InRange(CompositeKey(ds), CompositeKey(cs), RangeEnd(CompositeKey(cs))) <==> cs <= ds
  {
    if cs <= ds {
      ExtensionInRange(cs, ds);
    } else if InRange(CompositeKey(ds), CompositeKey(cs), RangeEnd(CompositeKey(cs))) {
      InRangeExtends(cs, ds);
    }
  }

  /** `createRangeKeysForPartialCompositeKey`: the range holds exactly the composite keys that extend the partial key. */
  method CreateRangeKeys(objectType: Bytes, attributes: seq<Bytes>) returns (r: Option<(Bytes, Bytes)>)
    ensures r.Some? <==> Attributes([objectType] + attributes)
    ensures r.Some? ==> forall ds {:trigger CompositeKey(ds)} | Attributes(ds) ::
                          InRange(CompositeKey(ds), r.value.0, r.value.1) <==> [objectType] + attributes <= ds
  {
    var start := CreateCompositeKey(objectType, attributes);
    if start.None? {
      return None;
    }
    var end := start.value + EncodeRune(MAX_RUNE);
    forall ds {:trigger CompositeKey(ds)} | Attributes(ds)
      ensures InRange(CompositeKey(ds), start.value, end) <==> [objectType] + attributes <= ds
    {
      PartialKeyRange([objectType] + attributes, ds);
    }
    return Some((start.value, end));
  }

  /** Why U+10FFFF is refused: an attribute that starts with it would put its key outside the range. */
  lemma MaxRuneEscapes(cs: seq<Bytes>, x: Bytes)
    ensures !InRange(CompositeKey(cs + [EncodeRune(MAX_RUNE) + x]), CompositeKey(cs), RangeEnd(CompositeKey(cs)))
  {
    hide EncodeRune;
    var max, last := EncodeRune(MAX_RUNE), [EncodeRune(MAX_RUNE) + x];
    var start := CompositeKey(cs);
    JoinedConcat(cs, last);
    assert Joined(last) == max + x + [0] + Joined(last[1..]);
    assert CompositeKey(cs + last) == RangeEnd(start) + (x + [0]);
    NotBelowPrefix(RangeEnd(start), x + [0]);
  }

  // ---------- simple keys ----------

  /** `validateSimpleKeys`: no key starts with the composite-key namespace. */
  method ValidateSimpleKeys(keys: seq<Bytes>) returns (ok: bool)
    ensures ok <==> forall i :: 0 <= i < |keys| && |keys[i]| > 0 ==> keys[i][0] != 0
  {
    for i := 0 to |keys|
      invariant forall j :: 0 <= j < i && |keys[j]| > 0 ==> keys[j][0] != 0
    {
      if |keys[i]| > 0 && keys[i][0] == 0 {
        return false;
      }
    }
    ok := true;
  }

  /** Stands for an empty start key. */
  const EMPTY_KEY_SUBSTITUTE: Bytes := [1]

  /** So a range query over simple keys never returns a composite key, and a partial-key query never a simple key. */
  lemma RangesAreSeparate(low: Bytes, high: Bytes, cs: seq<Bytes>, ds: seq<Bytes>, simple: Bytes)
    requires (|low| > 0 ==> low[0] != 0) && (|simple| > 0 ==> simple[0] != 0)
    ensures !InRange(CompositeKey(cs), if |low| == 0 then EMPTY_KEY_SUBSTITUTE else low, high)
    ensures !InRange(simple, CompositeKey(ds), RangeEnd(CompositeKey(ds)))
  {
    hide EncodeRune, Joined;
    if InRange(simple, CompositeKey(ds), RangeEnd(CompositeKey(ds))) {
      BetweenExtends(CompositeKey(ds), EncodeRune(MAX_RUNE), simple);
    }
  }
}
