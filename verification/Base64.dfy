/**
 The Base64 codec (sections 4 and 5 of RFC 4648): an encoder by groups of three bytes, a
 decoder that shifts digits through a bit accumulator, alphabet detection, and decoding
 that overwrites its own input. Characters and bytes are both 8-bit values.
 */
module Base64 {
  import opened Text

  datatype Alphabet = Auto | Standard | UrlSafe

  datatype Behavior = Moderate | Loose

  datatype Decoded = Ok(bytes: seq<bv8>) | InvalidCharacter

  const PAD: bv8 := 61

  // ----- The alphabets -----

  /** The character of a 6-bit value; `url` chooses `-` and `_` over `+` and `/`. */
  function Digit(url: bool, v: bv8): bv8
    requires v < 64
  {
    if v < 26 then v + 65
    else if v < 52 then v + 71
    else if v < 62 then v - 4
    else if v == 62 then (if url then 45 else 43)
    else if url then 95
    else 47
  }

  /** `_base64_value`: the value of a character and the alphabet it settles. */
  function Value(a: Alphabet, c: bv8): Option<(bv8, Alphabet)> {
    if 65 <= c <= 90 then Some((c - 65, a))
    else if 97 <= c <= 122 then Some((c - 97 + 26, a))
    else if 48 <= c <= 57 then Some((c - 48 + 52, a))
    else if a == Standard then
      if c == 43 then Some((62, a)) else if c == 47 then Some((63, a)) else None
    else if a == UrlSafe then
      if c == 45 then Some((62, a)) else if c == 95 then Some((63, a)) else None
    else if c == 43 then Some((62, Standard))
    else if c == 47 then Some((63, Standard))
    else if c == 45 then Some((62, UrlSafe))
    else if c == 95 then Some((63, UrlSafe))
    else None
  }

  function Own(url: bool): Alphabet {
    if url then UrlSafe else Standard
  }

  // ----- The tables of sections 4 and 5 of RFC 4648 -----

  const UPPER := "ABCDEFGHIJKLMNOPQRSTUVWXYZ"
  const LOWER := "abcdefghijklmnopqrstuvwxyz"
  const DIGITS := "0123456789"

  lemma Letters(i: nat)
    requires i < 26
    ensures UPPER[i] as int == 65 + i && LOWER[i] as int == 97 + i
  {
  }

  lemma Numerals(i: nat)
    requires i < 10
    ensures DIGITS[i] as int == 48 + i
  {
  }

  /** The 64 characters of an alphabet in the order of their values. */
  function Table(url: bool): (t: string)
    ensures |t| == 64
  {
    UPPER + LOWER + DIGITS + (if url then "-_" else "+/")
  }

  lemma TableAt(url: bool, i: nat)
    requires i < 64
    ensures Table(url)[i] == if i < 26 then UPPER[i] else if i < 52 then LOWER[i - 26]
                             else if i < 62 then DIGITS[i - 52]
                             else (if url then "-_" else "+/")[i - 62]
  {
  }

  /** Every 6-bit value is written as the character at its place in the table. */
  lemma DigitsAreTables(url: bool, i: nat)
    requires i < 64
    ensures Digit(url, i as bv8) as int == Table(url)[i] as int
  {
    TableAt(url, i);
    if i < 26 {
      Letters(i);
    } else if i < 52 {
      Letters(i - 26);
    } else if i < 62 {
      Numerals(i - 52);
    }
    DigitAt(url, i);
  }

  lemma DigitAt(url: bool, i: nat)
    requires i < 64
    ensures Digit(url, i as bv8) as int
         == if i < 26 then i + 65 else if i < 52 then i + 71 else if i < 62 then i - 4
            else if i == 62 then (if url then 45 else 43) else if url then 95 else 47
  {
  }

  lemma ValueOfDigit(url: bool, v: bv8, a: Alphabet)
    requires v < 64 && (a == Auto || a == Own(url))
    ensures Digit(url, v) != PAD
    ensures var r := Value(a, Digit(url, v)); r.Some? && r.value.0 == v && (r.value.1 == Auto || r.value.1 == Own(url))
  {
  }

  lemma DigitOfValue(url: bool, c: bv8)
    requires Value(Own(url), c).Some?
    ensures var v := Value(Own(url), c).value.0; v < 64 && Digit(url, v) == c && c != PAD
  {
  }

  // ----- Encoding -----

  // The four 6-bit values of a group of three bytes.

  function First(b0: bv8): (v: bv8)
    ensures v < 64
  {
    b0 >> 2
  }

  function Second(b0: bv8, b1: bv8): (v: bv8)
    ensures v < 64
  {
    ((b0 & 3) << 4) | (b1 >> 4)
  }

  function Third(b1: bv8, b2: bv8): (v: bv8)
    ensures v < 64
  {
    ((b1 & 15) << 2) | (b2 >> 6)
  }

  function Fourth(b2: bv8): (v: bv8)
    ensures v < 64
  {
    b2 & 63
  }

  /** The four characters for the first one, two or three bytes. */
  function Group(x: seq<bv8>, url: bool): seq<bv8>
    requires x != []
  {
    if |x| == 1 then [Digit(url, First(x[0])), Digit(url, Second(x[0], 0)), PAD, PAD]
    else if |x| == 2 then
      [Digit(url, First(x[0])), Digit(url, Second(x[0], x[1])), Digit(url, Third(x[1], 0)), PAD]
    else
      [Digit(url, First(x[0])), Digit(url, Second(x[0], x[1])), Digit(url, Third(x[1], x[2])), Digit(url, Fourth(x[2]))]
  }

  function Beyond(x: seq<bv8>): seq<bv8> {
    if |x| <= 3 then [] else x[3..]
  }

  function Encoded(x: seq<bv8>, url: bool): seq<bv8>
    decreases |x|
  {
    if x == [] then [] else Group(x, url) + Encoded(Beyond(x), url)
  }

  lemma OneGroup(x: seq<bv8>, url: bool)
    requires 1 <= |x| <= 3
    ensures Encoded(x, url) == Group(x, url)
  {
    assert Beyond(x) == [] && Group(x, url) + [] == Group(x, url);
  }

  // Test vectors of section 10 of RFC 4648, one for each length of the padding.

  lemma PaddedTwice()
    ensures Encoded(['f' as bv8], false) == ['Z' as bv8, 'g' as bv8, '=' as bv8, '=' as bv8]
  {
    OneGroup(['f' as bv8], false);
  }

  lemma PaddedOnce()
    ensures Encoded(['f' as bv8, 'o' as bv8], false) == ['Z' as bv8, 'm' as bv8, '8' as bv8, '=' as bv8]
  {
    OneGroup(['f' as bv8, 'o' as bv8], false);
  }

  lemma NotPadded()
    ensures Encoded(['f' as bv8, 'o' as bv8, 'o' as bv8], false)
         == ['Z' as bv8, 'm' as bv8, '9' as bv8, 'v' as bv8]
  {
    OneGroup(['f' as bv8, 'o' as bv8, 'o' as bv8], false);
  }

  method Encode(x: seq<bv8>, alphabet: Alphabet) returns (out: seq<bv8>)
    ensures out == Encoded(x, alphabet == UrlSafe)
  {
    out := [];
    var url := alphabet == UrlSafe;
    var i := 0;
    while i < |x|
      invariant 0 <= i <= |x|
      invariant EncodedUpTo(x, url, i, out)
    {
      NextGroup(x, url, i, out);
      ghost var before := out;
      var i0 := x[i];
      i := i + 1;
      out := out + [Digit(url, First(i0))];
      if i == |x| {
        out := out + [Digit(url, Second(i0, 0))];
        out := out + [PAD];
        out := out + [PAD];
        FourPushed(before, Digit(url, First(i0)), Digit(url, Second(i0, 0)), PAD, PAD);
        break;
      }
      var i1 := x[i];
      i := i + 1;
      out := out + [Digit(url, Second(i0, i1))];
      if i == |x| {
        out := out + [Digit(url, Third(i1, 0))];
        out := out + [PAD];
        FourPushed(before, Digit(url, First(i0)), Digit(url, Second(i0, i1)), Digit(url, Third(i1, 0)), PAD);
        break;
      }
      var i2 := x[i];
      i := i + 1;
      out := out + [Digit(url, Third(i1, i2))];
      out := out + [Digit(url, Fourth(i2))];
      FourPushed(before, Digit(url, First(i0)), Digit(url, Second(i0, i1)), Digit(url, Third(i1, i2)),
          Digit(url, Fourth(i2)));
    }
    AllEncoded(x, url, out);
  }

  /** What is written, followed by the encoding of what is left, is the whole encoding. */
  ghost predicate EncodedUpTo(x: seq<bv8>, url: bool, i: nat, out: seq<bv8>)
    requires i <= |x|
  {
    out + Encoded(x[i..], url) == Encoded(x, url)
  }

  lemma FourPushed(s: seq<bv8>, a: bv8, b: bv8, c: bv8, d: bv8)
    ensures (((s + [a]) + [b]) + [c]) + [d] == s + [a, b, c, d]
  {
  }

  lemma NextGroup(x: seq<bv8>, url: bool, i: nat, before: seq<bv8>)
    requires i < |x| && EncodedUpTo(x, url, i, before)
    ensures i + 1 == |x| ==>
              EncodedUpTo(x, url, i + 1, before + [Digit(url, First(x[i])), Digit(url, Second(x[i], 0)), PAD, PAD])
    ensures i + 2 == |x| ==>
              EncodedUpTo(x, url, i + 2, before
                + [Digit(url, First(x[i])), Digit(url, Second(x[i], x[i + 1])), Digit(url, Third(x[i + 1], 0)), PAD])
    ensures i + 2 < |x| ==>
              EncodedUpTo(x, url, i + 3, before
                + [Digit(url, First(x[i])), Digit(url, Second(x[i], x[i + 1])),
                   Digit(url, Third(x[i + 1], x[i + 2])), Digit(url, Fourth(x[i + 2]))])
  {
    var next := if i + 3 <= |x| then i + 3 else |x|;
    assert Beyond(x[i..]) == x[next..];
    Associative(before, Group(x[i..], url), Encoded(x[next..], url));
  }

  lemma AllEncoded(x: seq<bv8>, url: bool, out: seq<bv8>)
    requires EncodedUpTo(x, url, |x|, out)
    ensures out == Encoded(x, url)
  {
    assert x[|x|..] == [];
    assert out + [] == out;
  }

  // ----- Decoding -----

  /** The byte completed by a digit, when the previous digit left `bits` bits. */
  function Merge(last: bv8, bits: nat, part: bv8): bv8 {
    if bits == 6 then (last << 2) | (part >> 4)
    else if bits == 4 then (last << 4) | (part >> 2)
    else (last << 6) | part
  }

  function Prepend(out: seq<bv8>, r: Decoded): Decoded {
    if r.Ok? then Ok(out + r.bytes) else r
  }

  predicate AllPad(s: seq<bv8>) {
    forall i :: 0 <= i < |s| ==> s[i] == PAD
  }

  /** What decoding the rest yields, given the alphabet, the last digit and its spare bits. */
  function Digits(s: seq<bv8>, a: Alphabet, last: bv8, bits: nat, behavior: Behavior): Decoded {
    if s == [] then Ok([])
    else if s[0] == PAD then
      if behavior == Loose || AllPad(s[1..]) then Ok([]) else InvalidCharacter
    else
      match Value(a, s[0])
      case None => InvalidCharacter
      case Some((part, a')) =>
        if bits + 6 >= 8 then Prepend([Merge(last, bits, part)], Digits(s[1..], a', part, bits - 2, behavior))
        else Digits(s[1..], a', part, bits + 6, behavior)
  }

  function DecodeOf(s: seq<bv8>, a: Alphabet, behavior: Behavior): Decoded {
    Digits(s, a, 0, 0, behavior)
  }

  /** The decoding loop has read up to `i` and written `out`. */
  ghost predicate Decoding(s: seq<bv8>, start: Alphabet, behavior: Behavior,
                           i: nat, out: seq<bv8>, a: Alphabet, last: bv8, bits: nat)
    requires i <= |s|
  {
    && bits in {0, 2, 4, 6}
    && Prepend(out, Digits(s[i..], a, last, bits, behavior)) == DecodeOf(s, start, behavior)
  }

  lemma StartDecoding(s: seq<bv8>, a: Alphabet, behavior: Behavior)
    ensures Decoding(s, a, behavior, 0, [], a, 0, 0)
  {
    assert s[0..] == s;
    var r := Digits(s, a, 0, 0, behavior);
    assert r.Ok? ==> [] + r.bytes == r.bytes;
  }

  lemma DecodeDigit(s: seq<bv8>, start: Alphabet, behavior: Behavior,
                    i: nat, out: seq<bv8>, a: Alphabet, last: bv8, bits: nat)
    requires i < |s| && s[i] != PAD && Decoding(s, start, behavior, i, out, a, last, bits)
    ensures match Value(a, s[i])
            case None => DecodeOf(s, start, behavior) == InvalidCharacter
            case Some((part, a')) =>
              if bits + 6 >= 8
              then Decoding(s, start, behavior, i + 1, out + [Merge(last, bits, part)], a', part, bits - 2)
              else Decoding(s, start, behavior, i + 1, out, a', part, bits + 6)
  {
    var t := s[i..];
    assert t[0] == s[i] && t[1..] == s[i + 1..];
    match Value(a, s[i])
    case None =>
    case Some((part, a')) =>
      if bits + 6 >= 8 {
        var r := Digits(t[1..], a', part, bits - 2, behavior);
        if r.Ok? {
          Associative(out, [Merge(last, bits, part)], r.bytes);
        }
      }
  }

  /** Where the padding check starts: the loop has read the first padding character. */
  function PastPad(s: seq<bv8>, i: nat): (j: nat)
    requires i <= |s|
    ensures j <= |s|
  {
    if i < |s| then i + 1 else i
  }

  /** The outcome when the digits before `i` became `out` and what is left is the padding. */
  function AfterDigits(s: seq<bv8>, i: nat, out: seq<bv8>, behavior: Behavior): Decoded
    requires i <= |s|
  {
    if behavior == Loose || AllPad(s[PastPad(s, i)..]) then Ok(out) else InvalidCharacter
  }

  lemma DecodeEnd(s: seq<bv8>, start: Alphabet, behavior: Behavior,
                  i: nat, out: seq<bv8>, a: Alphabet, last: bv8, bits: nat)
    requires i <= |s| && Decoding(s, start, behavior, i, out, a, last, bits)
    requires i < |s| ==> s[i] == PAD
    ensures DecodeOf(s, start, behavior) == AfterDigits(s, i, out, behavior)
  {
    assert out + [] == out;
    if i < |s| {
      assert s[i..][0] == s[i] && s[i..][1..] == s[i + 1..];
    }
  }

  /** The loop over the padding, which a loose decoder leaves out. */
  method CheckPadding(s: seq<bv8>, from: nat, behavior: Behavior) returns (ok: bool)
    requires from <= |s|
    ensures ok == (behavior == Loose || AllPad(s[from..]))
  {
    if behavior != Loose {
      var i := from;
      while i < |s|
        invariant from <= i <= |s|
        invariant forall j :: from <= j < i ==> s[j] == PAD
      {
        if s[i] != PAD {
          assert s[from..][i - from] == s[i];
          return false;
        }
        i := i + 1;
      }
    }
    return true;
  }

  method Decode(s: seq<bv8>, alphabet: Alphabet, behavior: Behavior) returns (r: Decoded)
    ensures r == DecodeOf(s, alphabet, behavior)
  {
    var a, last, out := alphabet, 0 as bv8, [];
    var bits: nat := 0;
    var i := 0;
    StartDecoding(s, alphabet, behavior);
    while i < |s| && s[i] != PAD
      invariant 0 <= i <= |s|
      invariant Decoding(s, alphabet, behavior, i, out, a, last, bits)
    {
      DecodeDigit(s, alphabet, behavior, i, out, a, last, bits);
      var v := Value(a, s[i]);
      if v.None? {
        return InvalidCharacter;
      }
      var part := v.value.0;
      a := v.value.1;
      i := i + 1;
      if bits + 6 >= 8 {
        out := out + [Merge(last, bits, part)];
        bits := bits - 2;
      } else {
        bits := bits + 6;
      }
      last := part;
    }
    DecodeEnd(s, alphabet, behavior, i, out, a, last, bits);
    var ok := CheckPadding(s, PastPad(s, i), behavior);
    if !ok {
      return InvalidCharacter;
    }
    return Ok(out);
  }

  method PutByte(buffer: array<bv8>, write: nat, b: bv8)
    requires write < buffer.Length
    modifies buffer
    ensures buffer[..write + 1] == old(buffer[..write]) + [b]
    ensures forall k :: write < k < buffer.Length ==> buffer[k] == old(buffer[k])
  {
    buffer[write] := b;
  }

  /** The digit loop with its output overwriting its input. The write position stays behind
      the read position, so what is still to be read is untouched. */
  method DigitsInPlace(buffer: array<bv8>, alphabet: Alphabet, behavior: Behavior)
    returns (ok: bool, read: nat, write: nat)
    modifies buffer
    ensures write <= read <= buffer.Length
    ensures forall k :: read <= k < buffer.Length ==> buffer[k] == old(buffer[k])
    ensures DecodeOf(old(buffer[..]), alphabet, behavior)
         == if ok then AfterDigits(old(buffer[..]), read, buffer[..write], behavior) else InvalidCharacter
  {
    ghost var s, out := buffer[..], [];
    var a, last := alphabet, 0 as bv8;
    var bits: nat := 0;
    read, write := 0, 0;
    StartDecoding(s, alphabet, behavior);
    while read < buffer.Length && buffer[read] != PAD
      invariant 0 <= write <= read <= buffer.Length
      invariant 8 * write + bits == 6 * read
      invariant forall k :: read <= k < buffer.Length ==> buffer[k] == s[k]
      invariant buffer[..write] == out
      invariant Decoding(s, alphabet, behavior, read, out, a, last, bits)
    {
      DecodeDigit(s, alphabet, behavior, read, out, a, last, bits);
      var v := Value(a, buffer[read]);
      read := read + 1;
      if v.None? {
        return false, read, write;
      }
      var part := v.value.0;
      a := v.value.1;
      if bits + 6 >= 8 {
        PutByte(buffer, write, Merge(last, bits, part));
        out := out + [Merge(last, bits, part)];
        write := write + 1;
        bits := bits - 2;
      } else {
        bits := bits + 6;
      }
      last := part;
    }
    DecodeEnd(s, alphabet, behavior, read, out, a, last, bits);
    return true, read, write;
  }

  /** `decode_inplace`: on success the front of the buffer is exactly the decoded text. */
  method DecodeInPlace(buffer: array<bv8>, alphabet: Alphabet, behavior: Behavior) returns (size: Option<nat>)
    modifies buffer
    ensures size.Some? ==> size.value <= buffer.Length
    ensures DecodeOf(old(buffer[..]), alphabet, behavior)
         == if size.Some? then Ok(buffer[..size.value]) else InvalidCharacter
  {
    ghost var s := buffer[..];
    var more, read, write := DigitsInPlace(buffer, alphabet, behavior);
    if !more {
      return None;
    }
    var from := PastPad(buffer[..], read);
    SameTail(buffer[..], s, from);
    var ok := CheckPadding(buffer[..], from, behavior);
    return if ok then Some(write) else None;
  }

  lemma SameTail(s: seq<bv8>, t: seq<bv8>, from: nat)
    requires from <= |s| == |t| && forall k :: from <= k < |s| ==> s[k] == t[k]
    ensures s[from..] == t[from..]
  {
  }
}
