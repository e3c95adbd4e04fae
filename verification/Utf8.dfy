/** Well-formed UTF-8 byte sequences (table 3-7 of the Unicode Standard), as `String::from_utf8` accepts them. */
module Utf8 {
  import opened Bytes

  predicate IsCont(b: byte) {
    0x80 <= b <= 0xBF
  }

  predicate Ascii(s: seq<byte>) {
    forall i | 0 <= i < |s| :: s[i] < 0x80
  }

  /** Length of the well-formed character `s` begins with; 0 when there is none. */
  function CharLen(s: seq<byte>): (n: nat)
    ensures n <= |s|
  {
    if s == [] then 0
    else if s[0] < 0x80 then 1
    else if 0xC2 <= s[0] <= 0xDF then
      if 2 <= |s| && IsCont(s[1]) then 2 else 0
    else if 0xE0 <= s[0] <= 0xEF then
      if 3 <= |s| && IsCont(s[1]) && IsCont(s[2])
         && (s[0] == 0xE0 ==> 0xA0 <= s[1]) && (s[0] == 0xED ==> s[1] <= 0x9F)
      then 3 else 0
    else if 0xF0 <= s[0] <= 0xF4 then
      if 4 <= |s| && IsCont(s[1]) && IsCont(s[2]) && IsCont(s[3])
         && (s[0] == 0xF0 ==> 0x90 <= s[1]) && (s[0] == 0xF4 ==> s[1] <= 0x8F)
      then 4 else 0
    else 0
  }

  predicate Valid(s: seq<byte>)
    decreases |s|
  {
    s == [] || (0 < CharLen(s) && Valid(s[CharLen(s)..]))
  }

  lemma CharLenAppend(a: seq<byte>, b: seq<byte>)
    requires 0 < CharLen(a)
    ensures CharLen(a + b) == CharLen(a)
  {}

  /** All bytes of a character but the first are continuation bytes. */
  lemma CharLenCont(s: seq<byte>, i: nat)
    requires 0 < i < CharLen(s)
    ensures IsCont(s[i]) && CharLen(s) <= |s|
  {}

  lemma CharLenTake(s: seq<byte>, i: nat)
    requires 0 < CharLen(s) <= i <= |s|
    ensures CharLen(s[..i]) == CharLen(s)
  {}

  lemma {:induction false} ValidConcat(a: seq<byte>, b: seq<byte>)
    requires Valid(a) && Valid(b)
    ensures Valid(a + b)
    decreases |a|
  {
    hide CharLen;
    if a == [] {
      assert a + b == b;
    } else {
      var n := CharLen(a);
      CharLenAppend(a, b);
      ValidConcat(a[n..], b);
      assert (a + b)[n..] == a[n..] + b;
    }
  }

  /** A valid sequence splits into valid halves wherever a character begins. */
  lemma {:induction false} ValidSplit(s: seq<byte>, i: nat)
    requires Valid(s) && i <= |s| && (i < |s| ==> !IsCont(s[i]))
    ensures Valid(s[..i]) && Valid(s[i..])
    decreases |s|
  {
    hide CharLen;
    if 0 < i {
      var n := CharLen(s);
      if i < n { CharLenCont(s, i); }
      CharLenTake(s, i);
      assert s[n..][i - n..] == s[i..] && s[n..][..i - n] == s[..i][n..];
      ValidSplit(s[n..], i - n);
    }
  }

  lemma {:induction false} AsciiValid(s: seq<byte>)
    requires Ascii(s)
    ensures Valid(s)
    decreases |s|
  {
    if s != [] {
      AsciiValid(s[1..]);
    }
  }

  lemma {:induction false} ValidAfterAscii(s: seq<byte>, i: nat)
    requires Valid(s) && i <= |s| && Ascii(s[..i])
    ensures Valid(s[i..])
    decreases i
  {
    if 0 < i {
      assert s[..i][0] == s[0] && CharLen(s) == 1;
      assert s[1..][..i - 1] == s[..i][1..];
      ValidAfterAscii(s[1..], i - 1);
      assert s[1..][i - 1..] == s[i..];
    }
  }

  // ---- The characters ----

  /** A code point that is no surrogate. */
  predicate Scalar(c: nat) {
    c <= 0x10FFFF && !(0xD800 <= c <= 0xDFFF)
  }

  /** Table 3-6 of the Unicode Standard. */
  function Encode(c: nat): (s: seq<byte>)
    requires Scalar(c)
    ensures 0 < |s| <= 4
  {
    if c < 0x80 then [c]
    else if c < 0x800 then [0xC0 + c / 64, 0x80 + c % 64]
    else if c < 0x1_0000 then [0xE0 + c / 4096, 0x80 + c / 64 % 64, 0x80 + c % 64]
    else [0xF0 + c / 0x4_0000, 0x80 + c / 4096 % 64, 0x80 + c / 64 % 64, 0x80 + c % 64]
  }

  function EncodeText(cs: seq<nat>): seq<byte>
    requires forall i | 0 <= i < |cs| :: Scalar(cs[i])
  {
    if cs == [] then [] else Encode(cs[0]) + EncodeText(cs[1..])
  }

  lemma CharLenOfEncoded(c: nat, t: seq<byte>)
    requires Scalar(c)
    ensures CharLen(Encode(c) + t) == |Encode(c)|
  {
    var s := Encode(c) + t;
    assert forall i | 0 <= i < |Encode(c)| :: s[i] == Encode(c)[i];
    if 0x800 <= c < 0x1_0000 {
      assert c / 64 % 64 == c / 64 - 64 * (c / 4096);
    } else if 0x1_0000 <= c {
      assert c / 4096 % 64 == c / 4096 - 64 * (c / 0x4_0000);
    }
  }

  lemma TwoBytesEncoded(s: seq<byte>) returns (c: nat)
    requires CharLen(s) == 2
    ensures Scalar(c) && s[..2] == Encode(c)
  {
    var a: int, b: int := s[0], s[1];
    c := 64 * (a - 0xC0) + (b - 0x80);
  }

  lemma ThreeBytesEncoded(s: seq<byte>) returns (c: nat)
    requires CharLen(s) == 3
    ensures Scalar(c) && s[..3] == Encode(c)
  {
    var a: int, b: int, d: int := s[0], s[1], s[2];
    var top := 64 * (a - 0xE0) + (b - 0x80);
    c := 64 * top + (d - 0x80);
    assert c / 64 == top && c / 4096 == c / 64 / 64 && top % 64 == b - 0x80;
  }

  lemma FourBytesEncoded(s: seq<byte>) returns (c: nat)
    requires CharLen(s) == 4
    ensures Scalar(c) && s[..4] == Encode(c)
  {
    var a: int, b: int, d: int, e: int := s[0], s[1], s[2], s[3];
    var high := 64 * (a - 0xF0) + (b - 0x80);
    var top := 64 * high + (d - 0x80);
    c := 64 * top + (e - 0x80);
    assert c / 64 == top && c / 4096 == top / 64 == high && c / 0x4_0000 == high / 64;
    assert top % 64 == d - 0x80 && high % 64 == b - 0x80;
  }

  lemma CharIsEncoded(s: seq<byte>) returns (c: nat)
    requires 0 < CharLen(s)
    ensures Scalar(c) && s[..CharLen(s)] == Encode(c)
  {
    match CharLen(s)
    case 1 => c := s[0];
    case 2 => c := TwoBytesEncoded(s);
    case 3 => c := ThreeBytesEncoded(s);
    case _ => c := FourBytesEncoded(s);
  }

  lemma {:induction false} EncodedIsValid(cs: seq<nat>)
    requires forall i | 0 <= i < |cs| :: Scalar(cs[i])
    ensures Valid(EncodeText(cs))
  {
    hide CharLen, Encode;
    if cs != [] {
      EncodedIsValid(cs[1..]);
      CharLenOfEncoded(cs[0], EncodeText(cs[1..]));
      assert EncodeText(cs)[|Encode(cs[0])|..] == EncodeText(cs[1..]);
    }
  }

  lemma {:induction false} ValidIsEncoded(s: seq<byte>) returns (cs: seq<nat>)
    requires Valid(s)
    ensures (forall i | 0 <= i < |cs| :: Scalar(cs[i])) && EncodeText(cs) == s
    decreases |s|
  {
    hide CharLen, Encode;
    cs := [];
    if s != [] {
      var c := CharIsEncoded(s);
      var more := ValidIsEncoded(s[CharLen(s)..]);
      cs := [c] + more;
      assert cs[1..] == more;
      assert s[..CharLen(s)] + s[CharLen(s)..] == s;
    }
  }

  /** Valid sequences are the encodings of sequences of characters, and nothing else. */
  lemma ValidIff(s: seq<byte>)
    ensures Valid(s) <==> exists cs: seq<nat> :: (forall i | 0 <= i < |cs| :: Scalar(cs[i])) && EncodeText(cs) == s
  {
    hide Valid, EncodeText;
    if Valid(s) {
      var cs := ValidIsEncoded(s);
    }
    if cs: seq<nat> :| (forall i | 0 <= i < |cs| :: Scalar(cs[i])) && EncodeText(cs) == s {
      EncodedIsValid(cs);
    }
  }
}
