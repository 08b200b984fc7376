/**
 The text of a response with responseType "text" (drakrun/web/frontend/src/api.js:85-103): what
 a browser makes of the bytes, by the decoder of the WHATWG Encoding Standard, section 8.1.1
 ("UTF-8 decoder"). A text is a sequence of UTF-16 code units, as strings in JavaScript are.
 */
module Utf8 {
  import opened Common

  newtype unit16 = u: int | 0 <= u < 0x10000

  type Text = seq<unit16>

  const REPLACEMENT: unit16 := 0xFFFD

  predicate IsAscii(b: Bytes) {
    forall i :: 0 <= i < |b| ==> b[i] < 0x80
  }

  /** How many bytes a sequence that begins so has; 1 also for a byte with which none begins. */
  function Wanted(first: byte): (n: nat)
    ensures 1 <= n <= 4
  {
    if 0xC2 <= first <= 0xDF then 2
    else if 0xE0 <= first <= 0xEF then 3
    else if 0xF0 <= first <= 0xF4 then 4
    else 1
  }

  predicate Continues(b: byte) {
    0x80 <= b <= 0xBF
  }

  /** Neither an overlong form, nor a surrogate, nor past the last code point. */
  predicate Second(first: byte, second: byte) {
    && Continues(second)
    && (first == 0xE0 ==> second >= 0xA0) && (first == 0xED ==> second <= 0x9F)
    && (first == 0xF0 ==> second >= 0x90) && (first == 0xF4 ==> second <= 0x8F)
  }

  /** How many of the bytes in front belong together. */
  function Taken(b: Bytes): (n: nat)
    requires b != []
    ensures 1 <= n <= |b| && n <= Wanted(b[0])
  {
    var wanted := Wanted(b[0]);
    if wanted < 2 || |b| < 2 || !Second(b[0], b[1]) then 1
    else if wanted < 3 || |b| < 3 || !Continues(b[2]) then 2
    else if wanted < 4 || |b| < 4 || !Continues(b[3]) then 3
    else 4
  }

  /** The bytes in front are a code point. */
  predicate WellFormed(b: Bytes)
    requires b != []
  {
    Taken(b) == Wanted(b[0]) && (b[0] < 0x80 || Wanted(b[0]) > 1)
  }

  function Low(b: byte): int
    requires Continues(b)
  {
    b as int - 0x80
  }

  /** The code units of the bytes in front: one, or a surrogate pair, or the replacement character. */
  function Front(b: Bytes): (t: Text)
    requires b != []
    ensures 1 <= |t| <= Taken(b)
    ensures WellFormed(b) ==> (|t| == Taken(b) <==> b[0] < 0x80)
    ensures b[0] < 0x80 ==> t == [b[0] as unit16]
    ensures b[0] >= 0x80 ==> forall i :: 0 <= i < |t| ==> t[i] >= 0x80
  {
    if b[0] < 0x80 then [b[0] as unit16]
    else if !WellFormed(b) then [REPLACEMENT]
    else if Taken(b) == 2 then [((b[0] as int - 0xC0) * 0x40 + Low(b[1])) as unit16]
    else if Taken(b) == 3 then [((b[0] as int - 0xE0) * 0x1000 + Low(b[1]) * 0x40 + Low(b[2])) as unit16]
    else
      var above := (b[0] as int - 0xF0) * 0x40000 + Low(b[1]) * 0x1000 + Low(b[2]) * 0x40 + Low(b[3]) - 0x10000;
      [(0xD800 + above / 0x400) as unit16, (0xDC00 + above % 0x400) as unit16]
  }

  function Decode(b: Bytes): (t: Text)
    ensures |t| <= |b| && (b != [] ==> t != [])
  {
    if b == [] then [] else Front(b) + Decode(b[Taken(b)..])
  }

  predicate IsUtf8(b: Bytes) {
    b == [] || (WellFormed(b) && IsUtf8(b[Taken(b)..]))
  }

  /** Of valid UTF-8, code units and bytes are equally many exactly when all of it is ASCII. */
  lemma {:induction false} OneUnitEachExactly(b: Bytes)
    requires IsUtf8(b)
    ensures |Decode(b)| == |b| <==> IsAscii(b)
  {
    if b != [] {
      var rest := b[Taken(b)..];
      OneUnitEachExactly(rest);
      if |Decode(b)| == |b| {
        forall i | 0 <= i < |b| ensures b[i] < 0x80 {
          if i > 0 { assert b[i] == rest[i - 1]; }
        }
      }
      if IsAscii(b) {
        assert forall i :: 0 <= i < |rest| ==> rest[i] == b[i + 1];
      }
    }
  }

  lemma {:induction false} AsciiIsItself(b: Bytes)
    requires IsAscii(b)
    ensures IsUtf8(b) && |Decode(b)| == |b| && forall i :: 0 <= i < |b| ==> Decode(b)[i] == b[i] as unit16
  {
    if b != [] {
      assert Taken(b) == 1;
      AsciiIsItself(b[1..]);
    }
  }

  lemma TakenAppend(a: Bytes, b: Bytes)
    requires a != [] && (b == [] || b[0] < 0x80)
    ensures Taken(a + b) == Taken(a)
  {
    assert forall i :: 0 <= i < |a| ==> (a + b)[i] == a[i];
    assert b != [] ==> (a + b)[|a|] == b[0];
  }

  lemma FrontAppend(a: Bytes, b: Bytes)
    requires a != [] && Taken(a + b) == Taken(a)
    ensures Front(a + b) == Front(a)
  {
    assert forall i :: 0 <= i < |a| ==> (a + b)[i] == a[i];
  }

  /** A character never reaches into what begins with an ASCII byte. */
  lemma {:induction false} DecodeAppend(a: Bytes, b: Bytes)
    requires b == [] || b[0] < 0x80
    ensures Decode(a + b) == Decode(a) + Decode(b)
    decreases |a|
  {
    if a == [] {
      assert a + b == b;
    } else {
      TakenAppend(a, b);
      FrontAppend(a, b);
      assert (a + b)[Taken(a)..] == a[Taken(a)..] + b;
      DecodeAppend(a[Taken(a)..], b);
      PushOut(Front(a), Decode(a[Taken(a)..]), Decode(b));
    }
  }

  lemma DecodeAfter(c: byte, b: Bytes)
    requires c < 0x80
    ensures Decode([c] + b) == [c as unit16] + Decode(b)
  {
    assert ([c] + b)[1..] == b;
  }

  lemma DecodeUpTo(a: Bytes, c: byte)
    requires c < 0x80
    ensures Decode(a + [c]) == Decode(a) + [c as unit16]
  {
    DecodeAppend(a, [c]);
    DecodeAfter(c, []);
    assert [c] + [] == [c];
  }

  /** Nor does one reach beyond a byte of ASCII. */
  lemma DecodeBehind(a: Bytes, c: byte, b: Bytes)
    requires c < 0x80
    ensures Decode(a + [c] + b) == Decode(a + [c]) + Decode(b)
  {
    DecodeUpTo(a, c);
    PushOut(a, [c], b);
    DecodeAppend(a, [c] + b);
    DecodeAfter(c, b);
    PushOut(Decode(a), [c as unit16], Decode(b));
  }

  /** An ASCII character in the text is its byte. */
  lemma {:induction false} NoneAdded(b: Bytes, c: byte)
    requires c < 0x80 && c !in b
    ensures c as unit16 !in Decode(b)
    decreases |b|
  {
    if b != [] {
      NoneAdded(b[Taken(b)..], c);
      assert b[0] in b;
    }
  }

  // ---------- The decoder and the encoder ----------

  type Scalar = c: int | 0 <= c < 0xD800 || 0xE000 <= c < 0x110000

  /** The bytes of a code point. */
  function Encode(c: Scalar): (b: Bytes)
    ensures b != []
  {
    if c < 0x80 then [c as byte]
    else if c < 0x800 then [(0xC0 + c / 0x40) as byte, (0x80 + c % 0x40) as byte]
    else if c < 0x10000 then
      [(0xE0 + c / 0x1000) as byte, (0x80 + c / 0x40 % 0x40) as byte, (0x80 + c % 0x40) as byte]
    else
      [(0xF0 + c / 0x40000) as byte, (0x80 + c / 0x1000 % 0x40) as byte,
       (0x80 + c / 0x40 % 0x40) as byte, (0x80 + c % 0x40) as byte]
  }

  /** Its code units in UTF-16. */
  function Units(c: Scalar): Text {
    if c < 0x10000 then [c as unit16]
    else [(0xD800 + (c - 0x10000) / 0x400) as unit16, (0xDC00 + (c - 0x10000) % 0x400) as unit16]
  }

  /** A code point above the first plane is a high surrogate followed by a low one. */
  lemma UnitsAre(c: Scalar)
    ensures c < 0x10000 ==> |Units(c)| == 1 && Units(c)[0] as int == c
    ensures c >= 0x10000 ==>
              && |Units(c)| == 2 && 0xD800 <= Units(c)[0] < 0xDC00 <= Units(c)[1] < 0xE000
              && c == 0x10000 + (Units(c)[0] as int - 0xD800) * 0x400 + (Units(c)[1] as int - 0xDC00)
  {
  }

  function EncodeAll(cs: seq<Scalar>): Bytes {
    if cs == [] then [] else Encode(cs[0]) + EncodeAll(cs[1..])
  }

  function UnitsOfAll(cs: seq<Scalar>): Text {
    if cs == [] then [] else Units(cs[0]) + UnitsOfAll(cs[1..])
  }

  /** The digits of a code point to the base 64. */
  lemma Digits(c: int)
    requires 0 <= c < 0x110000
    ensures c / 0x40 == c / 0x1000 * 0x40 + c / 0x40 % 0x40
    ensures c / 0x1000 == c / 0x40000 * 0x40 + c / 0x1000 % 0x40
    ensures c == c / 0x1000 * 0x1000 + c / 0x40 % 0x40 * 0x40 + c % 0x40
    ensures c == c / 0x40000 * 0x40000 + c / 0x1000 % 0x40 * 0x1000 + c / 0x40 % 0x40 * 0x40 + c % 0x40
  {
    assert c / 0x1000 == c / 0x40 / 0x40 && c / 0x40000 == c / 0x1000 / 0x40;
  }

  lemma EncodedWhole(c: Scalar)
    ensures WellFormed(Encode(c)) && Taken(Encode(c)) == |Encode(c)|
  {
    if 0x800 <= c < 0x10000 {
      assert c / 0x1000 == 0 ==> c / 0x40 % 0x40 >= 0x20;
      assert c / 0x1000 == 0xD ==> c / 0x40 % 0x40 <= 0x1F;
    } else if 0x10000 <= c {
      assert c / 0x40000 == 0 ==> c / 0x1000 % 0x40 >= 0x10;
      assert c / 0x40000 == 4 ==> c / 0x1000 % 0x40 <= 0xF;
    }
  }

  lemma EncodeDecodes(c: Scalar)
    ensures WellFormed(Encode(c)) && Taken(Encode(c)) == |Encode(c)| && Front(Encode(c)) == Units(c)
  {
    EncodedWhole(c);
    Digits(c);
    if 0x80 <= c < 0x800 {
      assert Front(Encode(c)) == [c as unit16];
    } else if 0x800 <= c < 0x10000 {
      assert Low(Encode(c)[1]) == c / 0x40 % 0x40 && Low(Encode(c)[2]) == c % 0x40;
      assert Front(Encode(c)) == [c as unit16];
    }
  }

  /** What was encoded is valid, and decodes to the same characters. */
  lemma {:induction false} RoundTrip(cs: seq<Scalar>)
    ensures IsUtf8(EncodeAll(cs)) && Decode(EncodeAll(cs)) == UnitsOfAll(cs)
  {
    if cs != [] {
      var b, rest := Encode(cs[0]), EncodeAll(cs[1..]);
      EncodeDecodes(cs[0]);
      assert forall i :: 0 <= i < |b| ==> (b + rest)[i] == b[i];
      assert Taken(b + rest) == Taken(b);
      FrontAppend(b, rest);
      assert (b + rest)[|b|..] == rest;
      RoundTrip(cs[1..]);
    }
  }
}
