/**
 What the codec is for: decoding inverts encoding, encoding inverts decoding exactly on the
 canonical texts, detection agrees with the two fixed alphabets, the decoded bits are the
 digits' bits, and the two size formulas.
 */
module Base64Laws {
  import opened Base64
  import opened Text

  // ----- Decoding inverts encoding -----

  /** The decoder may detect the alphabet or be told the right one. */
  predicate Reads(a: Alphabet, url: bool) {
    a == Auto || a == Own(url)
  }

  function PrependAt(last: bv8, bits: nat, v: bv8, r: Decoded): Decoded {
    if bits >= 2 then Prepend([Merge(last, bits, v)], r) else r
  }

  /** One encoded digit is read back as its value, whatever follows. */
  lemma OneDigit(url: bool, v: bv8, t: seq<bv8>, a: Alphabet, last: bv8, bits: nat, behavior: Behavior)
    returns (a': Alphabet)
    requires v < 64 && Reads(a, url)
    ensures Reads(a', url)
    ensures Digits([Digit(url, v)] + t, a, last, bits, behavior)
         == PrependAt(last, bits, v, Digits(t, a', v, if bits >= 2 then bits - 2 else bits + 6, behavior))
  {
    ValueOfDigit(url, v, a);
    a' := Value(a, Digit(url, v)).value.1;
    var s := [Digit(url, v)] + t;
    assert s[0] == Digit(url, v) && s[1..] == t;
  }

  /** Three bytes cut into four digits and merged again. */
  lemma MergeInvertsCut(b0: bv8, b1: bv8, b2: bv8)
    ensures Merge(First(b0), 6, Second(b0, b1)) == b0
    ensures Merge(Second(b0, b1), 4, Third(b1, b2)) == b1
    ensures Merge(Third(b1, b2), 2, Fourth(b2)) == b2
  {
  }

  lemma PaddingEnds(t: seq<bv8>, a: Alphabet, last: bv8, bits: nat, behavior: Behavior)
    requires AllPad(t)
    ensures Digits(t, a, last, bits, behavior) == Ok([])
  {
    if t != [] {
    }
  }

  lemma PrependTwice(a: seq<bv8>, b: seq<bv8>, r: Decoded)
    ensures Prepend(a, Prepend(b, r)) == Prepend(a + b, r)
  {
    if r.Ok? {
      Associative(a, b, r.bytes);
    }
  }

  /** The first two digits give the first byte. */
  lemma TwoDigits(url: bool, b0: bv8, b1: bv8, t: seq<bv8>, a: Alphabet, last: bv8, behavior: Behavior)
    returns (a': Alphabet)
    requires Reads(a, url)
    ensures Reads(a', url)
    ensures Digits([Digit(url, First(b0))] + ([Digit(url, Second(b0, b1))] + t), a, last, 0, behavior)
         == Prepend([b0], Digits(t, a', Second(b0, b1), 4, behavior))
  {
    a' := OneDigit(url, First(b0), [Digit(url, Second(b0, b1))] + t, a, last, 0, behavior);
    a' := OneDigit(url, Second(b0, b1), t, a', First(b0), 6, behavior);
    MergeInvertsCut(b0, b1, 0);
  }

  /** The third digit gives the second byte. */
  lemma ThreeDigits(url: bool, b0: bv8, b1: bv8, b2: bv8, t: seq<bv8>, a: Alphabet, last: bv8, behavior: Behavior)
    returns (a': Alphabet)
    requires Reads(a, url)
    ensures Reads(a', url)
    ensures Digits([Digit(url, First(b0))] + ([Digit(url, Second(b0, b1))]
                   + ([Digit(url, Third(b1, b2))] + t)), a, last, 0, behavior)
         == Prepend([b0, b1], Digits(t, a', Third(b1, b2), 2, behavior))
  {
    a' := TwoDigits(url, b0, b1, [Digit(url, Third(b1, b2))] + t, a, last, behavior);
    a' := OneDigit(url, Third(b1, b2), t, a', Second(b0, b1), 4, behavior);
    MergeInvertsCut(b0, b1, b2);
    PrependTwice([b0], [b1], Digits(t, a', Third(b1, b2), 2, behavior));
  }

  lemma FourDigits(url: bool, b0: bv8, b1: bv8, b2: bv8, t: seq<bv8>, a: Alphabet, last: bv8, behavior: Behavior)
    returns (a': Alphabet)
    requires Reads(a, url)
    ensures Reads(a', url)
    ensures Digits([Digit(url, First(b0))] + ([Digit(url, Second(b0, b1))]
                   + ([Digit(url, Third(b1, b2))] + ([Digit(url, Fourth(b2))] + t))), a, last, 0, behavior)
         == Prepend([b0, b1, b2], Digits(t, a', Fourth(b2), 0, behavior))
  {
    a' := ThreeDigits(url, b0, b1, b2, [Digit(url, Fourth(b2))] + t, a, last, behavior);
    a' := OneDigit(url, Fourth(b2), t, a', Third(b1, b2), 2, behavior);
    MergeInvertsCut(b0, b1, b2);
    PrependTwice([b0, b1], [b2], Digits(t, a', Fourth(b2), 0, behavior));
  }

  lemma Unfold4(p: bv8, q: bv8, r: bv8, s: bv8, t: seq<bv8>)
    ensures [p, q, r, s] + t == [p] + ([q] + ([r] + ([s] + t)))
  {
  }

  lemma LastGroup(x: seq<bv8>, url: bool)
    requires 1 <= |x| <= 3
    ensures Encoded(x, url) == Group(x, url)
  {
    assert Encoded([], url) == [];
    assert Group(x, url) + [] == Group(x, url);
  }

  lemma MoreGroups(x: seq<bv8>, rest: seq<bv8>, url: bool)
    requires |x| == 3
    ensures Encoded(x + rest, url) == Group(x, url) + Encoded(rest, url)
  {
    assert Beyond(x + rest) == rest;
    assert Group(x + rest, url) == Group(x, url);
  }

  lemma OneByteReadsBack(b0: bv8, url: bool, a: Alphabet, last: bv8, behavior: Behavior)
    requires Reads(a, url)
    ensures Digits(Group([b0], url), a, last, 0, behavior) == Ok([b0])
  {
    var a' := TwoDigits(url, b0, 0, [PAD, PAD], a, last, behavior);
    PaddingEnds([PAD, PAD], a', Second(b0, 0), 4, behavior);
    assert Group([b0], url) == [Digit(url, First(b0))] + ([Digit(url, Second(b0, 0))] + [PAD, PAD]);
  }

  lemma TwoBytesReadBack(b0: bv8, b1: bv8, url: bool, a: Alphabet, last: bv8, behavior: Behavior)
    requires Reads(a, url)
    ensures Digits(Group([b0, b1], url), a, last, 0, behavior) == Ok([b0, b1])
  {
    var a' := ThreeDigits(url, b0, b1, 0, [PAD], a, last, behavior);
    PaddingEnds([PAD], a', Third(b1, 0), 2, behavior);
    assert Group([b0, b1], url)
        == [Digit(url, First(b0))] + ([Digit(url, Second(b0, b1))] + ([Digit(url, Third(b1, 0))] + [PAD]));
  }

  lemma FullGroupReadsBack(b0: bv8, b1: bv8, b2: bv8, t: seq<bv8>, url: bool, a: Alphabet, last: bv8,
      behavior: Behavior)
    returns (a': Alphabet)
    requires Reads(a, url)
    ensures Reads(a', url)
    ensures Digits(Group([b0, b1, b2], url) + t, a, last, 0, behavior)
         == Prepend([b0, b1, b2], Digits(t, a', Fourth(b2), 0, behavior))
  {
    a' := FourDigits(url, b0, b1, b2, t, a, last, behavior);
    Unfold4(Digit(url, First(b0)), Digit(url, Second(b0, b1)), Digit(url, Third(b1, b2)), Digit(url, Fourth(b2)), t);
  }

  lemma FirstThree(x: seq<bv8>)
    requires |x| >= 3
    ensures [x[0], x[1], x[2]] + x[3..] == x
  {
  }

  lemma {:induction false} GroupsReadBack(x: seq<bv8>, url: bool, a: Alphabet, last: bv8, behavior: Behavior)
    requires Reads(a, url)
    ensures Digits(Encoded(x, url), a, last, 0, behavior) == Ok(x)
    decreases |x|
  {
    if |x| == 0 {
    } else if |x| == 1 {
      LastGroup(x, url);
      assert x == [x[0]];
      OneByteReadsBack(x[0], url, a, last, behavior);
    } else if |x| == 2 {
      LastGroup(x, url);
      assert x == [x[0], x[1]];
      TwoBytesReadBack(x[0], x[1], url, a, last, behavior);
    } else {
      var a' := FullGroupReadsBack(x[0], x[1], x[2], Encoded(x[3..], url), url, a, last, behavior);
      GroupsReadBack(x[3..], url, a', Fourth(x[2]), behavior);
      FirstThree(x);
      MoreGroups([x[0], x[1], x[2]], x[3..], url);
    }
  }

  /** Decoding an encoding gives back the bytes, for both alphabets and for detection. */
  lemma RoundTrip(x: seq<bv8>, url: bool, a: Alphabet, behavior: Behavior)
    requires Reads(a, url)
    ensures DecodeOf(Encoded(x, url), a, behavior) == Ok(x)
  {
    GroupsReadBack(x, url, a, 0, behavior);
  }

  // ----- Encoding inverts decoding on canonical texts -----

  predicate IsDigitOf(c: bv8, url: bool) {
    Value(Own(url), c).Some?
  }

  function Six(c: bv8, url: bool): (v: bv8)
    requires IsDigitOf(c, url)
  {
    Value(Own(url), c).value.0
  }

  /** Sections 3.2 and 3.5 of RFC 4648: groups of four, padding in the last one only, and
      no spare bits set. */
  predicate Canonical(s: seq<bv8>, url: bool)
    decreases |s|
  {
    s == [] ||
    (&& |s| >= 4
     && IsDigitOf(s[0], url) && IsDigitOf(s[1], url)
     && if |s| == 4 && s[3] == PAD then
          if s[2] == PAD then Six(s[1], url) & 15 == 0
          else IsDigitOf(s[2], url) && Six(s[2], url) & 3 == 0
        else IsDigitOf(s[2], url) && IsDigitOf(s[3], url) && Canonical(s[4..], url))
  }

  /** Four digits merged into three bytes and cut again. */
  lemma CutInvertsMerge(v0: bv8, v1: bv8, v2: bv8, v3: bv8)
    requires v0 < 64 && v1 < 64 && v2 < 64 && v3 < 64
    ensures var b0, b1, b2 := Merge(v0, 6, v1), Merge(v1, 4, v2), Merge(v2, 2, v3);
            First(b0) == v0 && Second(b0, b1) == v1 && Third(b1, b2) == v2 && Fourth(b2) == v3
  {
  }

  lemma NoSpareInSecond(v0: bv8, v1: bv8)
    requires v0 < 64 && v1 < 64 && v1 & 15 == 0
    ensures Second(Merge(v0, 6, v1), 0) == v1
  {
  }

  lemma NoSpareInThird(v1: bv8, v2: bv8)
    requires v1 < 64 && v2 < 64 && v2 & 3 == 0
    ensures Third(Merge(v1, 4, v2), 0) == v2
  {
  }

  lemma OneByteGroup(s: seq<bv8>, url: bool) returns (x: seq<bv8>)
    requires |s| == 4 && s[3] == PAD && s[2] == PAD && Canonical(s, url)
    ensures |x| == 1 && Group(x, url) == s
  {
    DigitOfValue(url, s[0]);
    DigitOfValue(url, s[1]);
    var v0, v1 := Six(s[0], url), Six(s[1], url);
    CutInvertsMerge(v0, v1, 0, 0);
    NoSpareInSecond(v0, v1);
    x := [Merge(v0, 6, v1)];
  }

  lemma TwoByteGroup(s: seq<bv8>, url: bool) returns (x: seq<bv8>)
    requires |s| == 4 && s[3] == PAD && s[2] != PAD && Canonical(s, url)
    ensures |x| == 2 && Group(x, url) == s
  {
    DigitOfValue(url, s[0]);
    DigitOfValue(url, s[1]);
    DigitOfValue(url, s[2]);
    var v0, v1, v2 := Six(s[0], url), Six(s[1], url), Six(s[2], url);
    CutInvertsMerge(v0, v1, v2, 0);
    NoSpareInThird(v1, v2);
    x := [Merge(v0, 6, v1), Merge(v1, 4, v2)];
  }

  lemma ThreeByteGroup(s: seq<bv8>, url: bool) returns (x: seq<bv8>)
    requires |s| == 4
    requires IsDigitOf(s[0], url) && IsDigitOf(s[1], url) && IsDigitOf(s[2], url) && IsDigitOf(s[3], url)
    ensures |x| == 3 && Group(x, url) == s
  {
    DigitOfValue(url, s[0]);
    DigitOfValue(url, s[1]);
    DigitOfValue(url, s[2]);
    DigitOfValue(url, s[3]);
    var v0, v1, v2, v3 := Six(s[0], url), Six(s[1], url), Six(s[2], url), Six(s[3], url);
    CutInvertsMerge(v0, v1, v2, v3);
    x := [Merge(v0, 6, v1), Merge(v1, 4, v2), Merge(v2, 2, v3)];
  }

  /** Every canonical text is the encoding of some bytes. */
  lemma {:induction false} CanonicalIsEncoded(s: seq<bv8>, url: bool) returns (x: seq<bv8>)
    requires Canonical(s, url)
    ensures Encoded(x, url) == s
    decreases |s|
  {
    if s == [] {
      x := [];
    } else if |s| == 4 && s[3] == PAD {
      if s[2] == PAD {
        x := OneByteGroup(s, url);
      } else {
        x := TwoByteGroup(s, url);
      }
      LastGroup(x, url);
    } else {
      var group := ThreeByteGroup(s[..4], url);
      var rest := CanonicalIsEncoded(s[4..], url);
      MoreGroups(group, rest, url);
      x := group + rest;
      assert s == s[..4] + s[4..];
    }
  }

  lemma SpareBitsOfEncoding(b0: bv8, b1: bv8)
    ensures Second(b0, 0) & 15 == 0 && Third(b1, 0) & 3 == 0
  {
  }

  lemma DigitIsDigit(url: bool, v: bv8)
    requires v < 64
    ensures IsDigitOf(Digit(url, v), url) && Six(Digit(url, v), url) == v && Digit(url, v) != PAD
  {
    ValueOfDigit(url, v, Own(url));
  }

  lemma {:induction false} EncodedIsCanonical(x: seq<bv8>, url: bool)
    ensures Canonical(Encoded(x, url), url)
    decreases |x|
  {
    if x != [] {
      var b1 := if |x| > 1 then x[1] else 0;
      var b2 := if |x| > 2 then x[2] else 0;
      DigitIsDigit(url, First(x[0]));
      DigitIsDigit(url, Second(x[0], b1));
      DigitIsDigit(url, Third(b1, b2));
      DigitIsDigit(url, Fourth(b2));
      SpareBitsOfEncoding(x[0], b1);
      EncodedIsCanonical(Beyond(x), url);
      var s := Encoded(x, url);
      assert s[..4] == Group(x, url) && s[4..] == Encoded(Beyond(x), url);
    }
  }

  /** Re-encoding what was decoded gives back exactly the canonical texts, and those are
      always accepted. */
  lemma EncodeInvertsDecode(s: seq<bv8>, url: bool, a: Alphabet, behavior: Behavior)
    requires Reads(a, url)
    ensures var r := DecodeOf(s, a, behavior); (r.Ok? && Encoded(r.bytes, url) == s) <==> Canonical(s, url)
  {
    var r := DecodeOf(s, a, behavior);
    if r.Ok? && Encoded(r.bytes, url) == s {
      EncodedIsCanonical(r.bytes, url);
    }
    if Canonical(s, url) {
      var x := CanonicalIsEncoded(s, url);
      RoundTrip(x, url, a, behavior);
    }
  }

  // ----- Alphabet detection -----

  /** Detection decodes what either fixed alphabet decodes, to the same bytes, and nothing else. */
  lemma {:induction false} DetectionAgrees(s: seq<bv8>, last: bv8, bits: nat, behavior: Behavior)
    ensures Digits(s, Auto, last, bits, behavior)
         == var r := Digits(s, Standard, last, bits, behavior);
            if r.Ok? then r else Digits(s, UrlSafe, last, bits, behavior)
    decreases |s|
  {
    if s != [] && s[0] != PAD {
      var v := Value(Auto, s[0]);
      if v.Some? && v.value.1 == Auto {
        DetectionAgrees(s[1..], v.value.0, if bits + 6 >= 8 then bits - 2 else bits + 6, behavior);
      }
    }
  }

  // ----- What is accepted, how much comes out, and which bits -----

  /** The characters before the first padding character. */
  function Payload(s: seq<bv8>): (p: seq<bv8>)
    ensures p <= s && PAD !in p
  {
    if s == [] || s[0] == PAD then [] else [s[0]] + Payload(s[1..])
  }

  predicate AllDigits(p: seq<bv8>, url: bool) {
    forall i :: 0 <= i < |p| ==> IsDigitOf(p[i], url)
  }

  /** A text is accepted when its payload uses one alphabet and, unless decoding loosely,
      only padding follows. */
  predicate Acceptable(s: seq<bv8>, url: bool, behavior: Behavior) {
    && AllDigits(Payload(s), url)
    && (behavior == Loose || AllPad(s[|Payload(s)|..]))
  }

  lemma AllPadFrom(s: seq<bv8>)
    requires s != []
    ensures AllPad(s) <==> s[0] == PAD && AllPad(s[1..])
  {
    assert forall i :: 0 <= i < |s| - 1 ==> s[1..][i] == s[i + 1];
    assert forall i :: 0 < i < |s| ==> s[i] == s[1..][i - 1];
  }

  lemma PayloadDigits(s: seq<bv8>, url: bool)
    requires s != [] && s[0] != PAD
    ensures AllDigits(Payload(s), url) <==> IsDigitOf(s[0], url) && AllDigits(Payload(s[1..]), url)
  {
    var p, q := Payload(s), Payload(s[1..]);
    assert p[0] == s[0];
    assert p[1..] == q;
    if AllDigits(p, url) {
      forall i | 0 <= i < |q| ensures IsDigitOf(q[i], url) {
        assert q[i] == p[i + 1];
      }
    }
    if IsDigitOf(s[0], url) && AllDigits(q, url) {
      forall i | 0 <= i < |p| ensures IsDigitOf(p[i], url) {
        assert i > 0 ==> p[i] == q[i - 1];
      }
    }
  }

  lemma {:induction false} AcceptedWhen(s: seq<bv8>, url: bool, last: bv8, bits: nat, behavior: Behavior)
    ensures Digits(s, Own(url), last, bits, behavior).Ok? <==> Acceptable(s, url, behavior)
    decreases |s|
  {
    if s != [] {
      if s[0] == PAD {
        AllPadFrom(s);
        assert s[0..] == s;
      } else {
        var v := Value(Own(url), s[0]);
        if v.Some? {
          AcceptedWhen(s[1..], url, v.value.0, if bits + 6 >= 8 then bits - 2 else bits + 6, behavior);
        }
        PayloadDigits(s, url);
        assert s[|Payload(s)|..] == s[1..][|Payload(s[1..])|..];
      }
    }
  }

  function MaxDecodeSize(size: nat): nat {
    (size / 4 + if size % 4 != 0 then 1 else 0) * 3
  }

  function RequiredEncodeSize(size: nat): nat {
    (size / 3 + if size % 3 != 0 then 1 else 0) * 4
  }

  lemma {:induction false} DigitsSize(s: seq<bv8>, a: Alphabet, last: bv8, bits: nat, behavior: Behavior)
    requires bits in {0, 2, 4, 6}
    ensures var r := Digits(s, a, last, bits, behavior); r.Ok? ==> |r.bytes| == (6 * |Payload(s)| + bits) / 8
    decreases |s|
  {
    if s != [] && s[0] != PAD {
      var v := Value(a, s[0]);
      if v.Some? {
        DigitsSize(s[1..], v.value.1, v.value.0, if bits + 6 >= 8 then bits - 2 else bits + 6, behavior);
      }
    }
  }

  /** Three bytes for four digits, rounded down, and never more than the reserved room. */
  lemma DecodedSize(s: seq<bv8>, a: Alphabet, behavior: Behavior)
    ensures var r := DecodeOf(s, a, behavior);
            r.Ok? ==> |r.bytes| == 3 * |Payload(s)| / 4 && |r.bytes| <= MaxDecodeSize(|s|)
  {
    DigitsSize(s, a, 0, 0, behavior);
  }

  lemma {:induction false} EncodedSize(x: seq<bv8>, url: bool)
    ensures |Encoded(x, url)| == RequiredEncodeSize(|x|)
    decreases |x|
  {
    if x != [] {
      EncodedSize(Beyond(x), url);
    }
  }

  // Bits, most significant first.

  function Bit(v: bv8, k: bv8): bool {
    v & k != 0
  }

  function EightBits(v: bv8): seq<bool> {
    [Bit(v, 128), Bit(v, 64), Bit(v, 32), Bit(v, 16), Bit(v, 8), Bit(v, 4), Bit(v, 2), Bit(v, 1)]
  }

  function SixBits(v: bv8): seq<bool> {
    [Bit(v, 32), Bit(v, 16), Bit(v, 8), Bit(v, 4), Bit(v, 2), Bit(v, 1)]
  }

  /** The low `bits` bits of a digit. */
  function Spare(v: bv8, bits: nat): seq<bool>
    requires bits in {0, 2, 4, 6}
  {
    SixBits(v)[6 - bits..]
  }

  function ByteBits(x: seq<bv8>): (b: seq<bool>)
    ensures |b| == 8 * |x|
  {
    if x == [] then [] else EightBits(x[0]) + ByteBits(x[1..])
  }

  function DigitBits(s: seq<bv8>, url: bool): (b: seq<bool>)
    requires AllDigits(s, url)
    ensures |b| == 6 * |s|
  {
    if s == [] then [] else SixBits(Six(s[0], url)) + DigitBits(s[1..], url)
  }

  lemma Merged2(last: bv8, part: bv8)
    requires last < 64 && part < 64
    ensures EightBits(Merge(last, 2, part))
         == [Bit(last, 2), Bit(last, 1), Bit(part, 32), Bit(part, 16), Bit(part, 8), Bit(part, 4), Bit(part, 2),
             Bit(part, 1)]
  {
  }

  lemma Merged4(last: bv8, part: bv8)
    requires last < 64 && part < 64
    ensures EightBits(Merge(last, 4, part))
         == [Bit(last, 8), Bit(last, 4), Bit(last, 2), Bit(last, 1), Bit(part, 32), Bit(part, 16), Bit(part, 8),
             Bit(part, 4)]
  {
  }

  lemma Merged6(last: bv8, part: bv8)
    requires last < 64 && part < 64
    ensures EightBits(Merge(last, 6, part))
         == [Bit(last, 32), Bit(last, 16), Bit(last, 8), Bit(last, 4), Bit(last, 2), Bit(last, 1), Bit(part, 32),
             Bit(part, 16)]
  {
  }

  /** The ways to regroup 2, 4 or 6 carried bits and 6 new ones into 8 and a rest. */
  lemma Regroup<T>(l: seq<T>, p: seq<T>)
    requires |l| == 6 && |p| == 6
    ensures l[4..] + p == [l[4], l[5], p[0], p[1], p[2], p[3], p[4], p[5]] + p[6..]
    ensures l[2..] + p == [l[2], l[3], l[4], l[5], p[0], p[1], p[2], p[3]] + p[4..]
    ensures l[0..] + p == [l[0], l[1], l[2], l[3], l[4], l[5], p[0], p[1]] + p[2..]
  {
  }

  /** A merged byte is the spare bits of the last digit followed by the front of the new one. */
  lemma MergedBits(last: bv8, bits: nat, part: bv8)
    requires bits in {2, 4, 6} && last < 64 && part < 64
    ensures Spare(last, bits) + SixBits(part) == EightBits(Merge(last, bits, part)) + Spare(part, bits - 2)
  {
    Regroup(SixBits(last), SixBits(part));
    if bits == 2 {
      Merged2(last, part);
    } else if bits == 4 {
      Merged4(last, part);
    } else {
      Merged6(last, part);
    }
  }

  lemma CarryPrefix<T>(spare: seq<T>, six: seq<T>, eight: seq<T>, left: seq<T>, more: seq<T>, rest: seq<T>)
    requires spare + six == eight + left && rest <= left + more
    ensures eight + rest <= spare + (six + more)
  {
    Associative(spare, six, more);
    Associative(eight, left, more);
    PrefixCancel(eight, rest, left + more);
  }

  lemma ByteCompleted(last: bv8, bits: nat, part: bv8, more: seq<bool>, rest: seq<bv8>)
    requires bits in {2, 4, 6} && last < 64 && part < 64
    requires ByteBits(rest) <= Spare(part, bits - 2) + more
    ensures ByteBits([Merge(last, bits, part)] + rest) <= Spare(last, bits) + (SixBits(part) + more)
  {
    var b := Merge(last, bits, part);
    MergedBits(last, bits, part);
    CarryPrefix(Spare(last, bits), SixBits(part), EightBits(b), Spare(part, bits - 2), more, ByteBits(rest));
    assert ([b] + rest)[1..] == rest;
  }

  lemma NothingCarried(last: bv8, part: bv8, more: seq<bool>)
    ensures Spare(last, 0) + (SixBits(part) + more) == Spare(part, 6) + more
  {
  }

  lemma AcceptableTail(s: seq<bv8>, url: bool, behavior: Behavior)
    requires s != [] && s[0] != PAD && Acceptable(s, url, behavior)
    ensures IsDigitOf(s[0], url) && Acceptable(s[1..], url, behavior)
    ensures DigitBits(Payload(s), url) == SixBits(Six(s[0], url)) + DigitBits(Payload(s[1..]), url)
  {
    PayloadDigits(s, url);
    assert s[|Payload(s)|..] == s[1..][|Payload(s[1..])|..];
    assert Payload(s)[1..] == Payload(s[1..]);
  }

  /** What holds of a decoding that starts with spare bits. */
  ghost predicate BitsKept(r: Decoded, spare: seq<bool>, digits: seq<bool>) {
    r.Ok? && ByteBits(r.bytes) <= spare + digits
  }

  lemma BitsStep(last: bv8, bits: nat, part: bv8, more: seq<bool>, r: Decoded)
    requires bits in {0, 2, 4, 6} && last < 64 && part < 64
    requires BitsKept(r, Spare(part, if bits >= 2 then bits - 2 else bits + 6), more)
    ensures BitsKept(PrependAt(last, bits, part, r), Spare(last, bits), SixBits(part) + more)
  {
    if bits >= 2 {
      ByteCompleted(last, bits, part, more, r.bytes);
    } else {
      NothingCarried(last, part, more);
    }
  }

  lemma DigitRead(s: seq<bv8>, url: bool, last: bv8, bits: nat, behavior: Behavior)
    requires s != [] && s[0] != PAD && IsDigitOf(s[0], url) && bits in {0, 2, 4, 6}
    ensures Digits(s, Own(url), last, bits, behavior)
         == PrependAt(last, bits, Six(s[0], url),
                      Digits(s[1..], Own(url), Six(s[0], url), if bits >= 2 then bits - 2 else bits + 6, behavior))
  {
  }

  lemma {:induction false} DigitsBits(s: seq<bv8>, url: bool, last: bv8, bits: nat, behavior: Behavior)
    requires bits in {0, 2, 4, 6} && last < 64 && Acceptable(s, url, behavior)
    ensures BitsKept(Digits(s, Own(url), last, bits, behavior), Spare(last, bits), DigitBits(Payload(s), url))
    decreases |s|
  {
    if s == [] || s[0] == PAD {
      AcceptedWhen(s, url, last, bits, behavior);
    } else {
      AcceptableTail(s, url, behavior);
      DigitOfValue(url, s[0]);
      var part := Six(s[0], url);
      var bits' := if bits >= 2 then bits - 2 else bits + 6;
      DigitRead(s, url, last, bits, behavior);
      DigitsBits(s[1..], url, part, bits', behavior);
      BitsStep(last, bits, part, DigitBits(Payload(s[1..]), url), Digits(s[1..], Own(url), part, bits', behavior));
    }
  }

  /** Section 4 of RFC 4648: the bits of the decoded bytes are the digits' bits, most
      significant first, and only an incomplete last byte is dropped. */
  lemma DecodedBits(s: seq<bv8>, url: bool, behavior: Behavior)
    requires Acceptable(s, url, behavior)
    ensures var r := DecodeOf(s, Own(url), behavior);
            r.Ok? && ByteBits(r.bytes) <= DigitBits(Payload(s), url) && |DigitBits(Payload(s), url)| < 8 * |r.bytes| + 8
  {
    DigitsBits(s, url, 0, 0, behavior);
    DigitsSize(s, Own(url), 0, 0, behavior);
    assert Spare(0, 0) + DigitBits(Payload(s), url) == DigitBits(Payload(s), url);
  }
}
