/**
  UTF-8 as section 3 of RFC 3629 defines it: encoding of scalar values, and decoding that
  drops whatever is not a complete well-formed character.
 */
module Utf8 {
  import opened Wrappers

  type Byte = b: int | 0 <= b < 256 witness 0

  type Scalar = c: int | 0 <= c < 0xD800 || 0xE000 <= c <= 0x10FFFF witness 0

  type Text = seq<Scalar>

  function EncodeChar(c: Scalar): (b: seq<Byte>)
    ensures 1 <= |b| <= 4
  {
    if c < 0x80 then [c]
    else if c < 0x800 then [0xC0 + c / 64, 0x80 + c % 64]
    else if c < 0x10000 then [0xE0 + c / 4096, 0x80 + c / 64 % 64, 0x80 + c % 64]
    else [0xF0 + c / 262144, 0x80 + c / 4096 % 64, 0x80 + c / 64 % 64, 0x80 + c % 64]
  }

  function Encode(s: Text): seq<Byte> {
    if s == [] then [] else EncodeChar(s[0]) + Encode(s[1..])
  }

  predicate Continues(b: seq<Byte>, k: nat) { k < |b| && 0x80 <= b[k] < 0xC0 }

  function Join2(a: int, b: int): int { (a - 0xC0) * 64 + (b - 0x80) }

  function Join3(a: int, b: int, c: int): int { (a - 0xE0) * 4096 + (b - 0x80) * 64 + (c - 0x80) }

  function Join4(a: int, b: int, c: int, d: int): int {
    (a - 0xF0) * 262144 + (b - 0x80) * 4096 + (c - 0x80) * 64 + (d - 0x80)
  }

  datatype Front = Front(c: Scalar, length: nat)

  /** The character a byte string starts with, if it starts with a well-formed one. */
  function FirstChar(b: seq<Byte>): (f: Option<Front>)
    ensures f.Some? ==> 1 <= f.value.length <= |b|
  {
    if b == [] then None
    else if b[0] < 0x80 then Some(Front(b[0], 1))
    else if 0xC0 <= b[0] < 0xE0 && Continues(b, 1) then
      var c := Join2(b[0], b[1]);
      if c >= 0x80 then Some(Front(c, 2)) else None
    else if 0xE0 <= b[0] < 0xF0 && Continues(b, 1) && Continues(b, 2) then
      var c := Join3(b[0], b[1], b[2]);
      if c >= 0x800 && !(0xD800 <= c < 0xE000) then Some(Front(c, 3)) else None
    else if 0xF0 <= b[0] < 0xF8 && Continues(b, 1) && Continues(b, 2) && Continues(b, 3) then
      var c := Join4(b[0], b[1], b[2], b[3]);
      if 0x10000 <= c <= 0x10FFFF then Some(Front(c, 4)) else None
    else None
  }

  /** Decoding with errors ignored: bytes that do not belong to a character are dropped. */
  function DecodeIgnore(b: seq<Byte>): Text {
    if b == [] then []
    else
      var f := FirstChar(b);
      if f.None? then DecodeIgnore(b[1..]) else [f.value.c] + DecodeIgnore(b[f.value.length..])
  }

  lemma JoinSplit(c: Scalar)
    ensures 0x80 <= c < 0x800 ==> Join2(0xC0 + c / 64, 0x80 + c % 64) == c
    ensures 0x800 <= c < 0x10000 ==> Join3(0xE0 + c / 4096, 0x80 + c / 64 % 64, 0x80 + c % 64) == c
    ensures 0x10000 <= c ==> Join4(0xF0 + c / 262144, 0x80 + c / 4096 % 64, 0x80 + c / 64 % 64, 0x80 + c % 64) == c
  {
    var q := c / 64;
    assert c / 4096 == q / 64 && c / 262144 == q / 64 / 64;
  }

  lemma FirstOfThree(c: Scalar, rest: seq<Byte>)
    requires 0x800 <= c < 0x10000
    ensures FirstChar(EncodeChar(c) + rest) == Some(Front(c, 3))
  {
    var b := EncodeChar(c) + rest;
    JoinSplit(c);
    assert b[0] == 0xE0 + c / 4096 && b[1] == 0x80 + c / 64 % 64 && b[2] == 0x80 + c % 64;
  }

  lemma FirstOfFour(c: Scalar, rest: seq<Byte>)
    requires 0x10000 <= c
    ensures FirstChar(EncodeChar(c) + rest) == Some(Front(c, 4))
  {
    var b := EncodeChar(c) + rest;
    JoinSplit(c);
    assert b[0] == 0xF0 + c / 262144 && b[1] == 0x80 + c / 4096 % 64
           && b[2] == 0x80 + c / 64 % 64 && b[3] == 0x80 + c % 64;
  }

  lemma FirstOfEncoded(c: Scalar, rest: seq<Byte>)
    ensures FirstChar(EncodeChar(c) + rest) == Some(Front(c, |EncodeChar(c)|))
  {
    var b := EncodeChar(c) + rest;
    if c < 0x80 {
      assert b[0] == c;
    } else if c < 0x800 {
      JoinSplit(c);
      assert b[0] == 0xC0 + c / 64 && b[1] == 0x80 + c % 64;
    } else if c < 0x10000 {
      FirstOfThree(c, rest);
    } else {
      FirstOfFour(c, rest);
    }
  }

  /** A character cut short decodes to nothing. */
  lemma CutCharVanishes(c: Scalar, k: nat)
    requires k < |EncodeChar(c)|
    ensures DecodeIgnore(EncodeChar(c)[..k]) == []
  {
    var b := EncodeChar(c)[..k];
    if k > 0 {
      assert FirstChar(b).None?;
      ContinuationsVanish(b[1..]);
    }
  }

  lemma {:induction false} ContinuationsVanish(b: seq<Byte>)
    requires forall k :: 0 <= k < |b| ==> 0x80 <= b[k] < 0xC0
    ensures DecodeIgnore(b) == []
  {
    if b != [] {
      ContinuationsVanish(b[1..]);
    }
  }

  /** How many characters of a text fit whole into k bytes. */
  function Whole(s: Text, k: nat): (j: nat)
    ensures j <= |s|
  {
    if s == [] || |EncodeChar(s[0])| > k then 0 else 1 + Whole(s[1..], k - |EncodeChar(s[0])|)
  }

  /** A prefix of an encoding decodes to the characters that are whole in it. */
  lemma {:induction false} DecodePrefix(s: Text, k: nat)
    requires k <= |Encode(s)|
    ensures DecodeIgnore(Encode(s)[..k]) == s[..Whole(s, k)]
  {
    if s != [] {
      var head, tail := EncodeChar(s[0]), Encode(s[1..]);
      if k < |head| {
        CutCharVanishes(s[0], k);
        assert Encode(s)[..k] == head[..k];
      } else {
        var rest := tail[..k - |head|];
        assert Encode(s)[..k] == head + rest;
        FirstOfEncoded(s[0], rest);
        assert (head + rest)[|head|..] == rest;
        DecodePrefix(s[1..], k - |head|);
        assert s[..Whole(s, k)] == [s[0]] + s[1..][..Whole(s[1..], k - |head|)];
      }
    }
  }

  lemma {:induction false} WholeAll(s: Text)
    ensures Whole(s, |Encode(s)|) == |s|
  {
    if s != [] {
      WholeAll(s[1..]);
    }
  }

  /** Decoding undoes encoding. */
  lemma RoundTrip(s: Text)
    ensures DecodeIgnore(Encode(s)) == s
  {
    DecodePrefix(s, |Encode(s)|);
    WholeAll(s);
    assert Encode(s)[..|Encode(s)|] == Encode(s) && s[..|s|] == s;
  }

  /** The whole characters are the longest prefix that fits. */
  lemma {:induction false} WholeIsLongest(s: Text, k: nat, j: nat)
    requires j <= |s|
    ensures |Encode(s[..j])| <= k <==> j <= Whole(s, k)
  {
    if j > 0 {
      assert s[..j][0] == s[0] && s[..j][1..] == s[1..][..j - 1];
      if |EncodeChar(s[0])| <= k {
        WholeIsLongest(s[1..], k - |EncodeChar(s[0])|, j - 1);
      }
    }
  }

  lemma Associates(a: seq<Byte>, b: seq<Byte>, c: seq<Byte>)
    ensures a + (b + c) == a + b + c
  {}

  lemma {:induction false} EncodeConcat(s: Text, t: Text)
    ensures Encode(s + t) == Encode(s) + Encode(t)
  {
    if s == [] {
      assert s + t == t;
    } else {
      EncodeConcat(s[1..], t);
      assert (s + t)[0] == s[0] && (s + t)[1..] == s[1..] + t;
      Associates(EncodeChar(s[0]), Encode(s[1..]), Encode(t));
    }
  }

  lemma {:induction false} AsciiIsItself(s: Text)
    requires forall k :: 0 <= k < |s| ==> s[k] < 0x80
    ensures Encode(s) == s
  {
    if s != [] {
      AsciiIsItself(s[1..]);
    }
  }

  // ----- The table of RFC 3629 -----

  /** The k-th byte of a character's encoding, or zero beyond its end. */
  function ByteOf(c: Scalar, k: nat): int { if k < |EncodeChar(c)| then EncodeChar(c)[k] else 0 }

  /** Lengths, and the range of each byte. */
  lemma EncodingRanges(c: Scalar)
    ensures |EncodeChar(c)| == if c <= 0x7F then 1 else if c <= 0x7FF then 2 else if c <= 0xFFFF then 3 else 4
    ensures forall k: nat :: 1 <= k < |EncodeChar(c)| ==> 0x80 <= ByteOf(c, k) <= 0xBF
    ensures 0x80 <= c <= 0x7FF ==> 0xC2 <= ByteOf(c, 0) <= 0xDF
    ensures 0x800 <= c <= 0xFFFF ==> 0xE0 <= ByteOf(c, 0) <= 0xEF
    ensures c >= 0x10000 ==> 0xF0 <= ByteOf(c, 0) <= 0xF4
  {}

  /** The bits each byte carries. */
  lemma EncodingBits(c: Scalar)
    ensures c <= 0x7F ==> ByteOf(c, 0) == c
    ensures 0x80 <= c <= 0x7FF ==> (ByteOf(c, 0) - 0xC0) * 64 + (ByteOf(c, 1) - 0x80) == c
    ensures 0x800 <= c <= 0xFFFF ==>
              (ByteOf(c, 0) - 0xE0) * 4096 + (ByteOf(c, 1) - 0x80) * 64 + (ByteOf(c, 2) - 0x80) == c
    ensures c >= 0x10000 ==>
              (ByteOf(c, 0) - 0xF0) * 262144 + (ByteOf(c, 1) - 0x80) * 4096
              + (ByteOf(c, 2) - 0x80) * 64 + (ByteOf(c, 3) - 0x80) == c
  {
    JoinSplit(c);
  }
}
