/** The chunked transfer coding (section 7.1 of RFC 9112) as the transform proxy reads it. */
module Chunked {
  import opened Wrappers
  import opened Bytes
  import opened Decimal
  import Utf8
  import Strings = Text

  const MAX_BODY_BYTES: nat := 16 * 1024 * 1024
  const SEMICOLON: byte := 59
  const PLUS: byte := 43

  // ---- Trimming UTF-8 text ----

  predicate AsciiSpace(b: byte) {
    9 <= b <= 13 || b == 32
  }

  /** The characters of two and of three bytes with the White_Space property. */
  predicate WideSpace2(a: byte, b: byte) {
    a == 0xC2 && (b == 0x85 || b == 0xA0)
  }

  predicate WideSpace3(a: byte, b: byte, c: byte) {
    || (a == 0xE1 && b == 0x9A && c == 0x80)
    || (a == 0xE2 && b == 0x80 && (0x80 <= c <= 0x8A || c == 0xA8 || c == 0xA9 || c == 0xAF))
    || (a == 0xE2 && b == 0x81 && c == 0x9F)
    || (a == 0xE3 && b == 0x80 && c == 0x80)
  }

  /** Length of the white-space character `s` begins with; 0 when there is none. */
  function SpaceBefore(s: seq<byte>): (n: nat)
    ensures n <= |s|
  {
    if s == [] then 0
    else if AsciiSpace(s[0]) then 1
    else if 2 <= |s| && WideSpace2(s[0], s[1]) then 2
    else if 3 <= |s| && WideSpace3(s[0], s[1], s[2]) then 3
    else 0
  }

  /** Length of the white-space character `s` ends with; 0 when there is none. */
  function SpaceAfter(s: seq<byte>): (n: nat)
    ensures n <= |s|
  {
    var l := |s|;
    if s == [] then 0
    else if AsciiSpace(s[l - 1]) then 1
    else if 2 <= l && WideSpace2(s[l - 2], s[l - 1]) then 2
    else if 3 <= l && WideSpace3(s[l - 3], s[l - 2], s[l - 1]) then 3
    else 0
  }

  function SpaceLength(c: nat): nat
    requires Utf8.Scalar(c)
  {
    if Strings.Space(Strings.Rust, c as char) then |Utf8.Encode(c)| else 0
  }

  lemma SpaceAlone(c: nat)
    requires Utf8.Scalar(c)
    ensures SpaceBefore(Utf8.Encode(c)) == SpaceAfter(Utf8.Encode(c)) == SpaceLength(c)
  {
    if 0x800 <= c < 0x1_0000 {
      assert c / 64 % 64 == c / 64 - 64 * (c / 4096);
    }
  }

  /** These are the encodings of the white-space characters, at the beginning of a text and at its end. */
  lemma SpacesAreSpaces(c: nat, t: seq<byte>)
    requires Utf8.Scalar(c)
    ensures SpaceBefore(Utf8.Encode(c) + t) == SpaceLength(c) && SpaceAfter(t + Utf8.Encode(c)) == SpaceLength(c)
  {
    SpaceAlone(c);
    var e := Utf8.Encode(c);
    EncodedShape(c);
    hide SpaceLength, Utf8.Encode;
    BeforeStays(e, t);
    AfterStays(t, e);
  }

  /** A lead byte and continuation bytes, as many as the lead byte says. */
  predicate Shape(e: seq<byte>) {
    && e != [] && (forall i | 0 < i < |e| :: 0x80 <= e[i] < 0xC0)
    && !(0x80 <= e[0] < 0xC0)
    && |e| == if e[0] < 0x80 then 1 else if e[0] < 0xE0 then 2 else if e[0] < 0xF0 then 3 else 4
  }

  lemma EncodedShape(c: nat)
    requires Utf8.Scalar(c)
    ensures Shape(Utf8.Encode(c))
  {}

  lemma BeforeStays(e: seq<byte>, t: seq<byte>)
    requires Shape(e)
    ensures SpaceBefore(e + t) == SpaceBefore(e)
  {}

  lemma AfterStays(t: seq<byte>, e: seq<byte>)
    requires Shape(e)
    ensures SpaceAfter(t + e) == SpaceAfter(e)
  {
    var s := t + e;
    assert s[|s| - 1] == e[|e| - 1] && (2 <= |e| ==> s[|s| - 2] == e[|e| - 2]) && (3 <= |e| ==> s[|s| - 3] == e[|e| - 3]);
  }

  function TrimStart(s: seq<byte>): (t: seq<byte>)
    ensures |t| <= |s|
    decreases |s|
  {
    if SpaceBefore(s) == 0 then s else TrimStart(s[SpaceBefore(s)..])
  }

  function TrimEnd(s: seq<byte>): (t: seq<byte>)
    ensures t <= s
    decreases |s|
  {
    if SpaceAfter(s) == 0 then s else TrimEnd(s[..|s| - SpaceAfter(s)])
  }

  function Trim(s: seq<byte>): seq<byte> {
    TrimEnd(TrimStart(s))
  }

  lemma {:induction false} TrimStartIs(s: seq<byte>)
    ensures var t := TrimStart(s); t == s[|s| - |t|..] && SpaceBefore(t) == 0
    decreases |s|
  {
    hide SpaceBefore;
    var n := SpaceBefore(s);
    if n != 0 {
      TrimStartIs(s[n..]);
    }
  }

  lemma {:induction false} TrimEndIs(s: seq<byte>)
    ensures SpaceAfter(TrimEnd(s)) == 0
    decreases |s|
  {
    hide SpaceAfter;
    if SpaceAfter(s) != 0 {
      TrimEndIs(s[..|s| - SpaceAfter(s)]);
    }
  }

  /** A visible ASCII character. */
  predicate Visible(b: byte) {
    33 <= b < 0x7F
  }

  lemma VisibleIsNoSpace(s: seq<byte>, i: nat)
    requires i < |s| && Visible(s[i])
    ensures i < |s| - SpaceAfter(s)
    ensures i == 0 ==> SpaceBefore(s) == 0
  {}

  lemma {:induction false} TrimEndKeeps(s: seq<byte>, i: nat)
    requires i < |s| && Visible(s[i])
    ensures i < |TrimEnd(s)|
    decreases |s|
  {
    VisibleIsNoSpace(s, i);
    hide SpaceAfter, SpaceBefore;
    if SpaceAfter(s) != 0 {
      TrimEndKeeps(s[..|s| - SpaceAfter(s)], i);
    }
  }

  lemma {:induction false} TrimStartKeeps(s: seq<byte>, i: nat)
    requires i < |s| && Visible(s[i])
    ensures |s| - |TrimStart(s)| <= i
    decreases |s|
  {
    var n := SpaceBefore(s);
    assert n <= i;
    hide SpaceBefore;
    if n != 0 {
      TrimStartKeeps(s[n..], i - n);
    }
  }

  /** Trimming keeps every visible character. */
  lemma TrimKeeps(s: seq<byte>, i: nat) returns (a: nat)
    requires i < |s| && Visible(s[i])
    ensures a <= i < a + |Trim(s)| <= |s| && Trim(s) == s[a..a + |Trim(s)|]
  {
    TrimStartIs(s);
    TrimStartKeeps(s, i);
    hide TrimStart, TrimEnd, SpaceBefore, SpaceAfter;
    var t := TrimStart(s);
    a := |s| - |t|;
    assert t[i - a] == s[i];
    TrimEndKeeps(t, i - a);
    var u := TrimEnd(t);
    assert u == t[..|u|] == s[a..][..|u|] == s[a..a + |u|];
  }

  // ---- Hexadecimal numerals ----

  predicate IsHexDigit(b: byte) {
    48 <= b <= 57 || 65 <= b <= 70 || 97 <= b <= 102
  }

  function HexDigit(b: byte): (d: nat)
    requires IsHexDigit(b)
    ensures d < 16
  {
    var n: int := b;
    if n <= 57 then n - 48 else if n <= 70 then n - 55 else n - 87
  }

  predicate AllHex(s: seq<byte>) {
    forall i | 0 <= i < |s| :: IsHexDigit(s[i])
  }

  function HexValue(s: seq<byte>): nat
    requires AllHex(s)
  {
    if s == [] then 0 else 16 * HexValue(s[..|s| - 1]) + HexDigit(s[|s| - 1])
  }

  /** `usize::from_str_radix(s, 16)` */
  function ParseHex(s: seq<byte>): Option<nat> {
    var digits := if 2 <= |s| && s[0] == PLUS then s[1..] else s;
    if digits != [] && AllHex(digits) && HexValue(digits) < USIZE then Some(HexValue(digits)) else None
  }

  function UpTo(s: seq<byte>, stop: byte): seq<byte> {
    if s == [] || s[0] == stop then [] else [s[0]] + UpTo(s[1..], stop)
  }

  /** The size a chunk's first line announces. */
  function ChunkSize(line: seq<byte>): Option<nat> {
    ParseHex(Trim(UpTo(Trim(line), SEMICOLON)))
  }

  lemma {:induction false} UpToIs(a: seq<byte>, stop: byte, rest: seq<byte>)
    requires stop !in a && (rest == [] || rest[0] == stop)
    ensures UpTo(a + rest, stop) == a
  {
    if a == [] {
      assert a + rest == rest;
    } else {
      assert (a + rest)[1..] == a[1..] + rest;
      UpToIs(a[1..], stop, rest);
    }
  }

  lemma TrimStartStops(s: seq<byte>)
    requires s != [] && Visible(s[0])
    ensures TrimStart(s) == s
  {
    VisibleIsNoSpace(s, 0);
  }

  lemma TrimEndStops(s: seq<byte>)
    requires s != [] && Visible(s[|s| - 1])
    ensures TrimEnd(s) == s
  {
    VisibleIsNoSpace(s, |s| - 1);
  }

  lemma TrimLineEnd(s: seq<byte>)
    ensures TrimEnd(s + [CR, LF]) == TrimEnd(s)
  {
    var a, b := s + [CR, LF], s + [CR];
    assert SpaceAfter(a) == 1 && SpaceAfter(b) == 1;
    hide SpaceAfter;
    assert a[..|a| - 1] == b && b[..|b| - 1] == s;
    assert TrimEnd(a) == TrimEnd(b);
  }

  predicate Blank(s: seq<byte>) {
    forall i | 0 <= i < |s| :: AsciiSpace(s[i])
  }

  lemma {:induction false} BlanksBefore(before: seq<byte>, v: seq<byte>)
    requires Blank(before) && v != [] && Visible(v[0])
    ensures TrimStart(before + v) == v
  {
    if before == [] {
      assert before + v == v;
      VisibleIsNoSpace(v, 0);
    } else {
      var s := before + v;
      assert AsciiSpace(s[0]) && s[1..] == before[1..] + v;
      BlanksBefore(before[1..], v);
    }
  }

  lemma {:induction false} BlanksAfter(v: seq<byte>, after: seq<byte>)
    requires Blank(after) && v != [] && Visible(v[|v| - 1])
    ensures TrimEnd(v + after) == v
    decreases |after|
  {
    if after == [] {
      assert v + after == v;
      VisibleIsNoSpace(v, |v| - 1);
    } else {
      var n := |after| - 1;
      var s := v + after;
      assert AsciiSpace(s[|s| - 1]) && s[..|s| - 1] == v + after[..n];
      BlanksAfter(v, after[..n]);
    }
  }

  /** ASCII white space around a text goes. */
  lemma TrimBlanks(before: seq<byte>, v: seq<byte>, after: seq<byte>)
    requires Blank(before) && Blank(after) && v != [] && Visible(v[0]) && Visible(v[|v| - 1])
    ensures Trim(before + (v + after)) == v
  {
    hide TrimStart, TrimEnd, AsciiSpace;
    BlanksBefore(before, v + after);
    BlanksAfter(v, after);
  }

  lemma SizeOf(num: seq<byte>, extension: seq<byte>)
    requires num != [] && Visible(num[0]) && Visible(num[|num| - 1]) && SEMICOLON !in num
    requires extension == [] || extension[0] == SEMICOLON
    ensures ChunkSize(num + extension + [CR, LF]) == ParseHex(num)
  {
    hide TrimEnd, TrimStart, UpTo, SpaceBefore, SpaceAfter, ParseHex;
    var s := num + extension;
    TrimStartStops(s + [CR, LF]);
    TrimLineEnd(s);
    var t := TrimEnd(s);
    assert t == s[..|t|];
    if extension == [] {
      assert s == num;
      TrimEndStops(num);
      assert t == num + [];
      UpToIs(num, SEMICOLON, []);
    } else {
      assert s[|num|] == SEMICOLON;
      TrimEndKeeps(s, |num|);
      assert t == num + t[|num|..];
      UpToIs(num, SEMICOLON, t[|num|..]);
    }
    TrimStartStops(num);
    TrimEndStops(num);
  }

  /** A plus, any number of leading zeros, either case, any extension and any blanks before the line end. */
  lemma SizeLineReads(sign: seq<byte>, hex: seq<byte>, extension: seq<byte>)
    requires sign == [] || sign == Ascii("+")
    requires hex != [] && AllHex(hex) && HexValue(hex) < USIZE
    requires extension == [] || extension[0] == SEMICOLON
    ensures ChunkSize(sign + hex + extension + [CR, LF]) == Some(HexValue(hex))
  {
    SignIsVisible(sign, hex);
    SignedParses(sign, hex);
    hide *;
    SizeOf(sign + hex, extension);
  }

  lemma SignIsVisible(sign: seq<byte>, hex: seq<byte>)
    requires sign == [] || sign == Ascii("+")
    requires hex != [] && AllHex(hex)
    ensures var num := sign + hex; num != [] && Visible(num[0]) && Visible(num[|num| - 1]) && SEMICOLON !in num
  {
    assert Ascii("+") == [PLUS];
    var num := sign + hex;
    assert IsHexDigit(hex[0]) && IsHexDigit(hex[|hex| - 1]);
    assert num[|num| - 1] == hex[|hex| - 1] && num[0] == if sign == [] then hex[0] else PLUS;
  }

  lemma SignedParses(sign: seq<byte>, hex: seq<byte>)
    requires sign == [] || sign == Ascii("+")
    requires hex != [] && AllHex(hex) && HexValue(hex) < USIZE
    ensures ParseHex(sign + hex) == Some(HexValue(hex))
  {
    assert Ascii("+") == [PLUS] && IsHexDigit(hex[0]);
    hide HexValue;
    assert [] + hex == hex && ([PLUS] + hex)[1..] == hex;
  }

  // ---- What a size line says ----

  lemma {:induction false} UpToHas(s: seq<byte>, stop: byte, i: nat)
    requires i < |s| && stop !in s[..i + 1]
    ensures i < |UpTo(s, stop)| <= |s| && UpTo(s, stop)[i] == s[i]
  {
    assert s[..i + 1][0] == s[0];
    if 0 < i {
      assert forall b | b in s[1..][..i] :: b in s[..i + 1];
      UpToHas(s[1..], stop, i - 1);
    } else {
      UpToShorter(s[1..], stop);
    }
  }

  lemma {:induction false} UpToShorter(s: seq<byte>, stop: byte)
    ensures |UpTo(s, stop)| <= |s|
  {
    if s != [] { UpToShorter(s[1..], stop); }
  }

  /** A visible character that is no hexadecimal digit, before any semicolon, makes the size unreadable. */
  lemma SizeRefused(line: seq<byte>, i: nat)
    requires i < |line| && Visible(line[i]) && !IsHexDigit(line[i]) && line[i] != PLUS && SEMICOLON !in line[..i + 1]
    ensures ChunkSize(line) == None
  {
    var a := TrimKeeps(line, i);
    var t := Trim(line);
    assert t[i - a] == line[i] && t[..i - a + 1] == line[..i + 1][a..];
    UpToHas(t, SEMICOLON, i - a);
    var u := UpTo(t, SEMICOLON);
    var c := TrimKeeps(u, i - a);
    hide Trim, UpTo, HexValue;
    var hex := Trim(u);
    assert hex[i - a - c] == line[i];
    if 2 <= |hex| && hex[0] == PLUS {
      assert hex[1..][i - a - c - 1] == line[i];
    }
  }

  const LOWER_DIGITS: string := "0123456789abcdef"
  const UPPER_DIGITS: string := "0123456789ABCDEF"

  /** `n` in base 16, written with the given digits. */
  function HexText(n: nat, digits: string): (s: seq<byte>)
    requires |digits| == 16 && AllAscii(digits)
    ensures s != []
  {
    if n < 16 then [digits[n] as int] else HexText(n / 16, digits) + [digits[n % 16] as int]
  }

  lemma HexDigitReads(d: nat, upper: bool)
    requires d < 16
    ensures var digits := if upper then UPPER_DIGITS else LOWER_DIGITS;
      AllAscii(digits) && IsHexDigit(digits[d] as int) && HexDigit(digits[d] as int) == d
  {}

  lemma HexSnoc(s: seq<byte>, b: byte)
    requires AllHex(s) && IsHexDigit(b)
    ensures AllHex(s + [b]) && HexValue(s + [b]) == 16 * HexValue(s) + HexDigit(b)
  {
    assert (s + [b])[..|s|] == s;
  }

  lemma {:induction false} HexReads(n: nat, upper: bool)
    ensures var s := HexText(n, if upper then UPPER_DIGITS else LOWER_DIGITS); AllHex(s) && HexValue(s) == n
  {
    var digits := if upper then UPPER_DIGITS else LOWER_DIGITS;
    HexDigitReads(n % 16, upper);
    assert HexValue([]) == 0;
    hide IsHexDigit, HexDigit, AllAscii, AllHex, HexValue;
    var b: byte := digits[n % 16] as int;
    if n < 16 {
      HexSnoc([], b);
      assert [] + [b] == HexText(n, digits);
    } else {
      HexReads(n / 16, upper);
      HexSnoc(HexText(n / 16, digits), b);
    }
  }

  lemma {:induction false} ZerosAddNothing(k: nat, hex: seq<byte>)
    requires AllHex(hex)
    ensures AllHex(seq(k, _ => 48) + hex) && HexValue(seq(k, _ => 48) + hex) == HexValue(hex)
    decreases |hex|
  {
    var zeros := seq(k, _ => 48);
    var s := zeros + hex;
    if hex == [] {
      assert s == zeros;
      ZerosAreZero(k);
    } else {
      var n := |hex| - 1;
      ZerosAddNothing(k, hex[..n]);
      assert s[..|s| - 1] == zeros + hex[..n];
    }
  }

  lemma {:induction false} ZerosAreZero(k: nat)
    ensures AllHex(seq(k, _ => 48)) && HexValue(seq(k, _ => 48)) == 0
  {
    if k != 0 {
      ZerosAreZero(k - 1);
      assert seq(k, _ => 48)[..k - 1] == seq(k - 1, _ => 48);
    }
  }

  /** A size in base 16, in either case, after any number of zeros and before any extension, reads as itself. */
  lemma SizeLineSpells(n: nat, upper: bool, zeros: nat, extension: seq<byte>)
    requires n < USIZE && (extension == [] || extension[0] == SEMICOLON)
    ensures var hex := HexText(n, if upper then UPPER_DIGITS else LOWER_DIGITS);
      ChunkSize(seq(zeros, _ => 48) + hex + extension + [CR, LF]) == Some(n)
  {
    var hex := HexText(n, if upper then UPPER_DIGITS else LOWER_DIGITS);
    HexReads(n, upper);
    ZerosAddNothing(zeros, hex);
    assert [] + (seq(zeros, _ => 48) + hex) == seq(zeros, _ => 48) + hex;
    SizeLineReads([], seq(zeros, _ => 48) + hex, extension);
  }

  // ---- Decoding ----

  /** Length of the line `s` begins with, its LF included; all of `s` when there is none. */
  function LineLength(s: seq<byte>): (n: nat)
    ensures n <= |s| && (s != [] ==> 0 < n)
  {
    if s == [] then 0 else if s[0] == LF then 1 else 1 + LineLength(s[1..])
  }

  datatype Framed = Framed(body: seq<byte>, rest: seq<byte>)

  /** `read_chunked` from the point where `body` has been decoded and `s` is still to come. */
  function Decode(s: seq<byte>, body: seq<byte>): (r: Result<Framed>)
    decreases |s|
  {
    if s == [] then Err
    else
      var n := LineLength(s);
      if !Utf8.Valid(s[..n]) then Err
      else
        match ChunkSize(s[..n])
        case None => Err
        case Some(size) =>
          var t := s[n..];
          if size == 0 then if 2 <= |t| then Ok(Framed(body, t[2..])) else Err
          else if USIZE <= |body| + size then Panic
          else if MAX_BODY_BYTES < |body| + size || |t| < size + 2 then Err
          else Decode(t[size + 2..], body + t[..size])
  }

  lemma LineLengthStep(s: seq<byte>, k: nat)
    requires k < |s|
    ensures s[..k + 1] == s[..k] + [s[k]]
    ensures LineLength(s[k..]) == if s[k] == LF then 1 else 1 + LineLength(s[k + 1..])
  {
    assert s[k..][1..] == s[k + 1..];
  }

  method ReadLine(r: ByteStream) returns (line: seq<byte>)
    modifies r
    ensures var s := old(r.pending); line == s[..LineLength(s)] && r.pending == s[LineLength(s)..]
  {
    line := [];
    ghost var s := r.pending;
    hide LineLength;
    while true
      invariant |line| <= |s| && line == s[..|line|] && r.pending == s[|line|..]
      invariant LineLength(s) == |line| + LineLength(s[|line|..])
      decreases |s| - |line|
    {
      ghost var k := |line|;
      var b := r.Read(1);
      if b == [] {
        return;
      }
      LineLengthStep(s, k);
      line := line + b;
      if b[0] == LF {
        return;
      }
    }
  }

  /** The most bytes the body buffer is made to hold on the way, whatever becomes of the stream. */
  function Held(s: seq<byte>, body: seq<byte>): nat
    decreases |s|
  {
    if s == [] then |body|
    else
      var n := LineLength(s);
      var size := ChunkSize(s[..n]);
      var t := s[n..];
      if !Utf8.Valid(s[..n]) || size.None? || size.value == 0 || MAX_BODY_BYTES < |body| + size.value then |body|
      else if |t| < size.value + 2 then |body| + size.value
      else Held(t[size.value + 2..], body + t[..size.value])
  }

  /** The buffer never grows past the limit, on streams that end in an error too; a decoded body fills it. */
  lemma {:induction false} HeldIsBounded(s: seq<byte>, body: seq<byte>)
    requires |body| <= MAX_BODY_BYTES
    ensures |body| <= Held(s, body) <= MAX_BODY_BYTES
    ensures Decode(s, body).Ok? ==> |Decode(s, body).value.body| == Held(s, body)
    decreases |s|
  {
    hide ChunkSize, LineLength;
    if s != [] {
      var n := LineLength(s);
      var size := ChunkSize(s[..n]);
      var t := s[n..];
      if size.Some? && size.value != 0 && size.value + 2 <= |t| && |body| + size.value <= MAX_BODY_BYTES {
        HeldIsBounded(t[size.value + 2..], body + t[..size.value]);
      }
    }
  }

  /** One chunk's worth of both: what a turn of the loop sees once the line is read. */
  lemma OneChunk(s: seq<byte>, body: seq<byte>, size: nat)
    requires s != [] && Utf8.Valid(s[..LineLength(s)]) && ChunkSize(s[..LineLength(s)]) == Some(size) && size != 0
    requires |body| + size <= MAX_BODY_BYTES
    ensures var t := s[LineLength(s)..];
      && (|t| < size + 2 ==> Decode(s, body) == Err && Held(s, body) == |body| + size)
      && (size + 2 <= |t| ==> Decode(s, body) == Decode(t[size + 2..], body + t[..size])
                              && Held(s, body) == Held(t[size + 2..], body + t[..size]))
  {
    hide ChunkSize, LineLength;
  }

  /** What ends the reading before a chunk's data. */
  lemma NoChunk(s: seq<byte>, body: seq<byte>)
    ensures var n := LineLength(s);
      var size, t := ChunkSize(s[..n]), s[n..];
      if s == [] || !Utf8.Valid(s[..n]) || size.None? then Decode(s, body) == Err && Held(s, body) == |body|
      else if size.value == 0 then
        Decode(s, body) == (if 2 <= |t| then Ok(Framed(body, t[2..])) else Err) && Held(s, body) == |body|
      else if MAX_BODY_BYTES < |body| + size.value then
        Decode(s, body) == (if USIZE <= |body| + size.value then Panic else Err) && Held(s, body) == |body|
      else true
  {
    hide ChunkSize, LineLength, Utf8.Valid;
  }

  /** The data of a chunk and the line end behind it. */
  method ReadData(r: ByteStream, size: nat) returns (ok: bool, data: seq<byte>)
    modifies r
    ensures ok == (size + 2 <= |old(r.pending)|)
    ensures ok ==> data == old(r.pending)[..size] && r.pending == old(r.pending)[size + 2..]
  {
    ghost var t := r.pending;
    ok, data := r.ReadExact(size);
    if ok {
      var ended, _ := r.ReadExact(2);
      ok := ended;
      assert ok ==> r.pending == t[size + 2..];
    }
  }

  /** `peak` is the largest size the body buffer was given. */
  method ReadChunked(r: ByteStream) returns (res: Result<seq<byte>>, ghost peak: nat)
    modifies r
    ensures match Decode(old(r.pending), [])
            case Ok(f) => res == Ok(f.body) && r.pending == f.rest
            case Err => res == Err
            case Panic => res == Panic
    ensures peak == Held(old(r.pending), []) <= MAX_BODY_BYTES
  {
    HeldIsBounded(r.pending, []);
    hide ChunkSize, LineLength, Utf8.Valid, Decode, Held;
    ghost var all, most := Decode(r.pending, []), Held(r.pending, []);
    var body: seq<byte> := [];
    peak := 0;
    while true
      invariant Decode(r.pending, body) == all && Held(r.pending, body) == most
      invariant peak == |body|
      decreases |r.pending|
    {
      ghost var s := r.pending;
      NoChunk(s, body);
      var line := ReadLine(r);
      if line == [] || !Utf8.Valid(line) {
        return Err, peak;
      }
      var size := ChunkSize(line);
      if size.None? {
        return Err, peak;
      }
      if size.value == 0 {
        var ok, _ := r.ReadExact(2);
        return if ok then Ok(body) else Err, peak;
      }
      if USIZE <= |body| + size.value {
        return Panic, peak;
      }
      if MAX_BODY_BYTES < |body| + size.value {
        return Err, peak;
      }
      peak := |body| + size.value;
      OneChunk(s, body, size.value);
      var ok, data := ReadData(r, size.value);
      if !ok {
        return Err, peak;
      }
      body := body + data;
    }
  }

  // ---- The encodings ----

  /** A chunk as sent: its first line, and its data; `line` may be any line that reads as the size. */
  datatype Chunk = Chunk(line: seq<byte>, data: seq<byte>)

  predicate IsLine(line: seq<byte>) {
    line != [] && line[|line| - 1] == LF && LF !in line[..|line| - 1] && Utf8.Valid(line)
  }

  predicate SizeLine(line: seq<byte>, size: nat) {
    IsLine(line) && ChunkSize(line) == Some(size)
  }

  predicate Sound(c: Chunk) {
    c.data != [] && SizeLine(c.line, |c.data|)
  }

  function Data(chunks: seq<Chunk>): seq<byte> {
    if chunks == [] then [] else chunks[0].data + Data(chunks[1..])
  }

  function Encode(chunks: seq<Chunk>): seq<byte> {
    if chunks == [] then [] else chunks[0].line + (chunks[0].data + ([CR, LF] + Encode(chunks[1..])))
  }

  lemma {:induction false} LineLengthIs(line: seq<byte>, rest: seq<byte>)
    requires line != [] && line[|line| - 1] == LF && LF !in line[..|line| - 1]
    ensures LineLength(line + rest) == |line|
  {
    assert (line + rest)[1..] == line[1..] + rest;
    if 1 < |line| {
      assert line[0] == line[..|line| - 1][0];
      assert line[1..][..|line| - 2] == line[..|line| - 1][1..];
      LineLengthIs(line[1..], rest);
    }
  }

  lemma DecodeChunk(c: Chunk, rest: seq<byte>, body: seq<byte>)
    requires Sound(c) && |body| + |c.data| <= MAX_BODY_BYTES
    ensures Decode(c.line + (c.data + ([CR, LF] + rest)), body) == Decode(rest, body + c.data)
  {
    hide ChunkSize, LineLength;
    var t := c.data + ([CR, LF] + rest);
    LineLengthIs(c.line, t);
    assert (c.line + t)[..|c.line|] == c.line && (c.line + t)[|c.line|..] == t;
    assert t[..|c.data|] == c.data && t[|c.data| + 2..] == rest;
  }

  lemma DecodeLast(line: seq<byte>, end: seq<byte>, rest: seq<byte>, body: seq<byte>)
    requires SizeLine(line, 0) && |end| == 2
    ensures Decode(line + (end + rest), body) == Ok(Framed(body, rest))
  {
    hide ChunkSize, LineLength;
    var t := end + rest;
    LineLengthIs(line, t);
    assert (line + t)[..|line|] == line && (line + t)[|line|..] == t && t[2..] == rest;
  }

  /** Every encoding without trailers of a body within the limit decodes to it and leaves what follows. */
  lemma {:induction false} DecodeInvertsEncode(chunks: seq<Chunk>, last: seq<byte>, rest: seq<byte>, body: seq<byte>)
    requires forall c | c in chunks :: Sound(c)
    requires SizeLine(last, 0) && |body + Data(chunks)| <= MAX_BODY_BYTES
    ensures Decode(Encode(chunks) + (last + ([CR, LF] + rest)), body) == Ok(Framed(body + Data(chunks), rest))
  {
    hide Decode, ChunkSize, Utf8.Valid;
    var tail := last + ([CR, LF] + rest);
    if chunks == [] {
      assert Encode(chunks) + tail == tail && body + Data(chunks) == body;
      DecodeLast(last, [CR, LF], rest, body);
    } else {
      var c := chunks[0];
      var more := Encode(chunks[1..]) + tail;
      assert Encode(chunks) + tail == c.line + (c.data + ([CR, LF] + more));
      DecodeChunk(c, more, body);
      Assoc(body, c.data, Data(chunks[1..]));
      DecodeInvertsEncode(chunks[1..], last, rest, body + c.data);
    }
  }

  lemma {:induction false} LineLengthOfPrefix(line: seq<byte>, k: nat)
    requires k < |line| && LF !in line[..|line| - 1]
    ensures LineLength(line[..k]) == k
  {
    if 0 < k {
      assert line[..|line| - 1][0] == line[0] && line[..k][1..] == line[1..][..k - 1];
      assert line[1..][..|line| - 2] == line[..|line| - 1][1..];
      LineLengthOfPrefix(line[1..], k - 1);
    }
  }

  lemma CutInLine(line: seq<byte>, k: nat, body: seq<byte>)
    requires IsLine(line) && k < |line|
    ensures !Decode(line[..k], body).Ok?
  {
    LineLengthOfPrefix(line, k);
    hide ChunkSize, LineLength;
    var s := line[..k];
    assert s != [] ==> s[LineLength(s)..] == [];
  }

  lemma CutInData(line: seq<byte>, size: nat, t: seq<byte>, body: seq<byte>)
    requires SizeLine(line, size) && |t| < size + 2
    ensures !Decode(line + t, body).Ok?
  {
    hide ChunkSize, LineLength;
    LineLengthIs(line, t);
    assert (line + t)[..|line|] == line && (line + t)[|line|..] == t;
  }

  lemma PrefixOf<T>(a: seq<T>, b: seq<T>, k: nat)
    requires k <= |a + b|
    ensures (a + b)[..k] == if k <= |a| then a[..k] else a + b[..k - |a|]
  {}

  lemma ChunkFirst(c: Chunk, encoded: seq<byte>, tail: seq<byte>)
    ensures c.line + (c.data + ([CR, LF] + encoded)) + tail == c.line + (c.data + ([CR, LF] + (encoded + tail)))
  {}

  lemma CutInChunk(c: Chunk, more: seq<byte>, k: nat, body: seq<byte>)
    requires Sound(c) && k < |c.line| + |c.data| + 2
    ensures !Decode(Sent(c, more)[..k], body).Ok?
  {
    hide ChunkSize, LineLength, Decode, Utf8.Valid;
    var t := c.data + ([CR, LF] + more);
    PrefixOf(c.line, t, k);
    if k < |c.line| {
      CutInLine(c.line, k, body);
    } else {
      assert c.line[..|c.line|] == c.line && c.line + t[..0] == c.line;
      CutInData(c.line, |c.data|, t[..k - |c.line|], body);
    }
  }

  lemma PrefixPastChunk(c: Chunk, more: seq<byte>, k: nat)
    requires |c.line| + |c.data| + 2 <= k <= |c.line| + |c.data| + 2 + |more|
    ensures (c.line + (c.data + ([CR, LF] + more)))[..k] ==
            c.line + (c.data + ([CR, LF] + more[..k - |c.line| - |c.data| - 2]))
  {
    PrefixOf(c.line, c.data + ([CR, LF] + more), k);
    PrefixOf(c.data, [CR, LF] + more, k - |c.line|);
    PrefixOf([CR, LF], more, k - |c.line| - |c.data|);
  }

  /** One chunk and what is sent after it. */
  function Sent(c: Chunk, more: seq<byte>): seq<byte> {
    c.line + (c.data + ([CR, LF] + more))
  }

  lemma ChunksUnfold(chunks: seq<Chunk>, tail: seq<byte>)
    requires chunks != [] && forall c | c in chunks :: Sound(c)
    ensures Encode(chunks) + tail == Sent(chunks[0], Encode(chunks[1..]) + tail)
    ensures |Data(chunks)| == |chunks[0].data| + |Data(chunks[1..])|
    ensures Sound(chunks[0]) && forall c | c in chunks[1..] :: Sound(c)
  {
    hide Sound;
    ChunkFirst(chunks[0], Encode(chunks[1..]), tail);
  }

  lemma CutInLast(last: seq<byte>, k: nat, body: seq<byte>)
    requires SizeLine(last, 0) && k < |last| + 2
    ensures !Decode((last + [CR, LF])[..k], body).Ok?
  {
    hide ChunkSize, LineLength, Decode, Utf8.Valid;
    PrefixOf(last, [CR, LF], k);
    if k < |last| {
      CutInLine(last, k, body);
    } else {
      assert last[..|last|] == last && last + [CR, LF][..0] == last;
      CutInData(last, 0, [CR, LF][..k - |last|], body);
    }
  }

  lemma CutFurther(c: Chunk, more: seq<byte>, k: nat, body: seq<byte>)
    requires Sound(c) && |body| + |c.data| <= MAX_BODY_BYTES && k <= |Sent(c, more)|
    ensures var head := |c.line| + |c.data| + 2;
      && |Sent(c, more)| == head + |more|
      && (head <= k ==> Decode(Sent(c, more)[..k], body) == Decode(more[..k - head], body + c.data))
  {
    hide Decode, Sound;
    if |c.line| + |c.data| + 2 <= k {
      PrefixPastChunk(c, more, k);
      DecodeChunk(c, more[..k - |c.line| - |c.data| - 2], body);
    }
  }

  /** Cut short anywhere, an encoding is never taken for a whole body. */
  lemma {:induction false} TruncatedIsRejected(chunks: seq<Chunk>, last: seq<byte>, all: seq<byte>, k: nat, body: seq<byte>)
    requires forall c | c in chunks :: Sound(c)
    requires SizeLine(last, 0) && |body| + |Data(chunks)| <= MAX_BODY_BYTES
    requires all == Encode(chunks) + (last + [CR, LF]) && k < |all|
    ensures !Decode(all[..k], body).Ok?
  {
    if chunks == [] {
      assert all == last + [CR, LF];
      hide *;
      CutInLast(last, k, body);
    } else {
      var c := chunks[0];
      var more := Encode(chunks[1..]) + (last + [CR, LF]);
      ChunksUnfold(chunks, last + [CR, LF]);
      hide *;
      CutFurther(c, more, k, body);
      if k < |c.line| + |c.data| + 2 {
        CutInChunk(c, more, k, body);
      } else {
        TruncatedIsRejected(chunks[1..], last, more, k - |c.line| - |c.data| - 2, body + c.data);
      }
    }
  }

  lemma BadLine(line: seq<byte>, rest: seq<byte>, body: seq<byte>)
    requires line != [] && line[|line| - 1] == LF && LF !in line[..|line| - 1] && !Utf8.Valid(line)
    ensures Decode(line + rest, body) == Err
  {
    hide ChunkSize, LineLength;
    LineLengthIs(line, rest);
    assert (line + rest)[..|line|] == line;
  }

  /** A size line that is not UTF-8 ends the reading with an error, after any number of good chunks and whatever its size. */
  lemma {:induction false} BadLineIsRejected(chunks: seq<Chunk>, line: seq<byte>, rest: seq<byte>, body: seq<byte>)
    requires forall c | c in chunks :: Sound(c)
    requires line != [] && line[|line| - 1] == LF && LF !in line[..|line| - 1] && !Utf8.Valid(line)
    requires |body + Data(chunks)| <= MAX_BODY_BYTES
    ensures Decode(Encode(chunks) + (line + rest), body) == Err
  {
    hide Decode, ChunkSize, Utf8.Valid;
    var tail := line + rest;
    if chunks == [] {
      assert Encode(chunks) + tail == tail;
      BadLine(line, rest, body);
    } else {
      var c := chunks[0];
      var more := Encode(chunks[1..]) + tail;
      assert Encode(chunks) + tail == c.line + (c.data + ([CR, LF] + more));
      DecodeChunk(c, more, body);
      Assoc(body, c.data, Data(chunks[1..]));
      BadLineIsRejected(chunks[1..], line, rest, body + c.data);
    }
  }

  lemma LoneByte(b: byte)
    requires 0x80 <= b
    ensures !Utf8.Valid([b, 34, CR, LF])
  {}

  function ObsTextLine(b: byte): seq<byte> {
    [53] + [59, 120, 61, 34, b, 34] + [CR, LF]
  }

  lemma ObsTextIsFive(b: byte)
    ensures ChunkSize(ObsTextLine(b)) == Some(5)
  {
    assert HexValue([53]) == 5 by { assert [53][..0] == [] && HexValue([]) == 0; }
    hide ChunkSize;
    assert [] + [53] == [53];
    SizeLineReads([], [53], [59, 120, 61, 34, b, 34]);
  }

  lemma ObsTextIsNoUtf8(b: byte)
    requires 0x80 <= b
    ensures !Utf8.Valid(ObsTextLine(b))
  {
    var line := ObsTextLine(b);
    assert line[5..] == [b, 34, CR, LF];
    LoneByte(b);
    hide Utf8.Valid;
    if Utf8.Valid(line) {
      Utf8.ValidAfterAscii(line, 5);
    }
  }

  lemma ObsTextIsLine(b: byte)
    requires 0x80 <= b
    ensures var line := ObsTextLine(b); line != [] && line[|line| - 1] == LF && LF !in line[..|line| - 1]
  {
    assert ObsTextLine(b)[..8] == [53, 59, 120, 61, 34, b, 34, CR];
  }

  /** `5;x="` and a byte of obs-text and `"`: an extension the grammar of RFC 9112 allows, on a line that announces 5. */
  lemma ObsTextIsRejected(b: byte, rest: seq<byte>, body: seq<byte>)
    requires 0x80 <= b
    ensures ChunkSize(ObsTextLine(b)) == Some(5) && Decode(ObsTextLine(b) + rest, body) == Err
  {
    ObsTextIsFive(b);
    ObsTextIsNoUtf8(b);
    ObsTextIsLine(b);
    hide *;
    BadLine(ObsTextLine(b), rest, body);
  }

  /** No decoded body exceeds the limit, and what is left is a proper suffix of what was there. */
  lemma {:induction false} DecodeIsBounded(s: seq<byte>, body: seq<byte>)
    requires |body| <= MAX_BODY_BYTES && Decode(s, body).Ok?
    ensures var f := Decode(s, body).value;
      body <= f.body && |f.body| <= MAX_BODY_BYTES && |f.rest| < |s| && f.rest == s[|s| - |f.rest|..]
    decreases |s|
  {
    hide ChunkSize, LineLength;
    var n := LineLength(s);
    var size := ChunkSize(s[..n]).value;
    var t := s[n..];
    if size != 0 {
      DecodeIsBounded(t[size + 2..], body + t[..size]);
    }
  }
}
