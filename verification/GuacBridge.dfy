/**
 The client's bridge from the gateway stream to the browser: a carry buffer from which only whole
 instructions are sent on, whatever the sizes of the reads.
 */
module GuacBridge {
  import opened Wrappers
  import opened Bytes
  import opened Decimal
  import opened GuacCodec
  import Utf8

  // ---- The scan, by instruction ----

  /**
   One element at the head of `s`, which starts at offset `off` of the buffer. `Overflow` is the
   addition of the declared length to the position leaving `usize`.
   */
  datatype Scan = Stop | Overflow | Item(value: seq<byte>, last: bool, size: nat)

  function ScanElement(s: seq<byte>, off: nat): (r: Scan)
    ensures r.Item? ==> 0 < r.size <= |s|
  {
    var k := DigitRun(s);
    if k == 0 || k == |s| || s[k] != DOT then Stop
    else
      var len := Value(s[..k]);
      if USIZE <= len then Stop
      else if USIZE <= off + k + 1 + len then Overflow
      else if |s| <= k + 1 + len then Stop
      else if s[k + 1 + len] == COMMA then Item(s[k + 1..k + 1 + len], false, k + 2 + len)
      else if s[k + 1 + len] == SEMI then Item(s[k + 1..k + 1 + len], true, k + 2 + len)
      else Stop
  }

  /** A number of bytes, unless the scan that counts them overflows. */
  datatype Extent = Size(n: nat) | Overflows {
    /** `k` bytes come first; no instruction at all stays none. */
    function After(k: nat): Extent {
      if Size? && n != 0 then Size(k + n) else this
    }
  }

  /** The size of the complete instruction `s` begins with; 0 when there is none. */
  function ScanInstruction(s: seq<byte>, off: nat): (r: Extent)
    ensures r.Size? ==> r.n <= |s|
    decreases |s|
  {
    match ScanElement(s, off)
    case Stop => Size(0)
    case Overflow => Overflows
    case Item(_, last, k) => if last then Size(k) else ScanInstruction(s[k..], off + k).After(k)
  }

  /** The size of the longest run of complete instructions `s` begins with. */
  function ScanAll(s: seq<byte>, off: nat): (r: Extent)
    ensures r.Size? ==> r.n <= |s|
    decreases |s|
  {
    match ScanInstruction(s, off)
    case Overflows => Overflows
    case Size(k) =>
      if k == 0 then Size(0)
      else
        match ScanAll(s[k..], off + k)
        case Overflows => Overflows
        case Size(m) => Size(k + m)
  }

  /** `start` bytes of complete instructions come before `s`, of which `k` bytes are an unfinished one's elements. */
  ghost predicate ScanState(all: Extent, buf: seq<byte>, start: nat, pos: nat) {
    && start <= pos <= |buf|
    && ScanInstruction(buf[start..], start) ==
         (if pos == start then ScanInstruction(buf[pos..], pos)
          else ScanInstruction(buf[pos..], pos).After(pos - start))
    && match ScanAll(buf[start..], start)
       case Overflows => all == Overflows
       case Size(m) => all == Size(start + m)
  }

  lemma ScanStateItem(all: Extent, buf: seq<byte>, start: nat, pos: nat)
    requires ScanState(all, buf, start, pos)
    requires var e := ScanElement(buf[pos..], pos); e.Item? && !e.last
    ensures ScanState(all, buf, start, pos + ScanElement(buf[pos..], pos).size)
  {
    var k := ScanElement(buf[pos..], pos).size;
    assert buf[pos..][k..] == buf[pos + k..];
  }

  lemma ScanStateEnd(all: Extent, buf: seq<byte>, start: nat, pos: nat)
    requires ScanState(all, buf, start, pos)
    requires var e := ScanElement(buf[pos..], pos); e.Item? && e.last
    ensures var end := pos + ScanElement(buf[pos..], pos).size; ScanState(all, buf, end, end)
  {
    hide ScanElement;
    var end := pos + ScanElement(buf[pos..], pos).size;
    assert ScanInstruction(buf[start..], start) == Size(end - start);
    assert buf[start..][end - start..] == buf[end..];
  }

  method SkipDigits(buf: seq<byte>, from: nat) returns (pos: nat)
    requires from <= |buf|
    ensures from <= pos <= |buf| && pos - from == DigitRun(buf[from..])
    ensures buf[from..pos] == buf[from..][..pos - from] && AllDigits(buf[from..pos])
  {
    pos := from;
    while pos < |buf| && IsDigit(buf[pos])
      invariant from <= pos <= |buf| && AllDigits(buf[from..pos])
    {
      assert buf[from..pos + 1] == buf[from..pos] + [buf[pos]];
      pos := pos + 1;
    }
    assert buf[from..][..pos - from] == buf[from..pos];
    DigitRunIs(buf[from..], pos - from);
  }

  /** The inner loop's body: digits, the dot, the value and the separator. */
  method ScanOne(buf: seq<byte>, from: nat) returns (e: Scan)
    requires from <= |buf|
    ensures e == ScanElement(buf[from..], from)
  {
    hide DigitRun, Value, AllDigits;
    var pos := SkipDigits(buf, from);
    ghost var s, k := buf[from..], pos - from;
    if pos == from || pos >= |buf| || buf[pos] != DOT {
      return Stop;
    }
    var len := Value(buf[from..pos]);
    if USIZE <= len {
      return Stop;
    }
    pos := pos + 1;
    if USIZE <= pos + len {
      return Overflow;
    }
    if |buf| <= pos + len {
      return Stop;
    }
    var value := buf[pos..pos + len];
    assert value == s[k + 1..k + 1 + len];
    pos := pos + len;
    match buf[pos]
    case 44 => return Item(value, false, pos + 1 - from);
    case 59 => return Item(value, true, pos + 1 - from);
    case _ => return Stop;
  }

  /** `last_instruction_end`; `Ok(None)` when no instruction is complete. */
  method LastInstructionEnd(buf: seq<byte>) returns (res: Result<Option<nat>>)
    ensures match ScanAll(buf, 0)
            case Size(n) => res == Ok(if n == 0 then None else Some(n))
            case Overflows => res == Panic
  {
    hide ScanElement;
    var lastEnd: Option<nat> := None;
    var pos: nat := 0;
    ghost var all, start := ScanAll(buf, 0), 0;  // `start` is where the instruction being scanned begins
    assert buf[0..] == buf;
    while true
      invariant lastEnd == if start == 0 then None else Some(start)
      invariant ScanState(all, buf, start, pos)
      decreases |buf| - pos
    {
      var e := ScanOne(buf, pos);
      match e {
        case Stop => return Ok(lastEnd);
        case Overflow => return Panic;
        case Item(_, last, size) =>
          if last {
            ScanStateEnd(all, buf, start, pos);
            pos := pos + size;
            start, lastEnd := pos, Some(pos);
          } else {
            ScanStateItem(all, buf, start, pos);
            pos := pos + size;
          }
      }
    }
  }

  // ---- The scan agrees with the gateway's reader ----

  /** How many bytes `read_instruction` can consume, one whole instruction after another. */
  function Readable(s: seq<byte>): nat
    decreases |s|
  {
    match DecodeElements(s)
    case Ok(d) => |s| - |d.rest| + Readable(d.rest)
    case _ => 0
  }

  /** Inside a valid UTF-8 stream every complete element is itself valid UTF-8. */
  lemma ElementIsValid(s: seq<byte>, off: nat, t: seq<byte>)
    requires Utf8.Valid(s + t) && ScanElement(s, off).Item?
    ensures var e := ScanElement(s, off); Utf8.Valid(e.value) && Utf8.Valid(s[e.size..] + t)
  {
    hide Utf8.Valid;
    var k, e := DigitRun(s), ScanElement(s, off);
    var body, len := (s + t)[k + 1..], |e.value|;
    assert (s + t)[..k + 1] == s[..k] + [DOT];
    Utf8.ValidAfterAscii(s + t, k + 1);
    assert body[len] == s[k + 1 + len] && body[..len] == e.value;
    Utf8.ValidSplit(body, len);
    Utf8.ValidAfterAscii(body[len..], 1);
    assert body[len..][1..] == s[e.size..] + t;
  }

  lemma ScanMatchesElement(s: seq<byte>, off: nat, t: seq<byte>)
    requires |s| <= ISIZE_MAX && Utf8.Valid(s + t) && !ScanElement(s, off).Overflow?
    ensures match ScanElement(s, off)
            case Item(v, last, size) => DecodeElement(s) == Ok(Element(v, last, s[size..]))
            case _ => !DecodeElement(s).Ok?
  {
    hide Utf8.Valid, DigitRun, Value;
    var e := ScanElement(s, off);
    if e.Item? {
      var k := DigitRun(s);
      var body := s[k + 1..];
      ElementIsValid(s, off, t);
      assert body[..|e.value|] == e.value && body[|e.value| + 1..] == s[e.size..];
    }
  }

  lemma {:induction false} ScanMatchesInstruction(s: seq<byte>, off: nat, t: seq<byte>)
    requires |s| <= ISIZE_MAX && Utf8.Valid(s + t) && ScanInstruction(s, off).Size?
    ensures var n := ScanInstruction(s, off).n;
      if n == 0 then !DecodeElements(s).Ok?
      else DecodeElements(s).Ok? && DecodeElements(s).value.rest == s[n..] && Utf8.Valid(s[n..] + t)
    decreases |s|
  {
    hide Utf8.Valid;
    hide ScanElement;
    hide DecodeElement;
    ScanMatchesElement(s, off, t);
    var e := ScanElement(s, off);
    if e.Item? {
      ElementIsValid(s, off, t);
      if !e.last {
        ScanMatchesInstruction(s[e.size..], off + e.size, t);
        var m := ScanInstruction(s[e.size..], off + e.size).n;
        assert s[e.size..][m..] == s[e.size + m..];
      }
    }
  }

  /** The length `s` begins with leaves `usize` when it is added to the position behind its dot. */
  predicate LengthOverruns(s: seq<byte>, off: nat) {
    var k := DigitRun(s);
    0 < k < |s| && s[k] == DOT && Value(s[..k]) < USIZE <= off + k + 1 + Value(s[..k])
  }

  /** Behind the elements the reader accepts, there is such a length. */
  predicate Overruns(s: seq<byte>, off: nat)
    decreases |s|
  {
    || LengthOverruns(s, off)
    || match DecodeElement(s)
       case Ok(e) => Overruns(e.rest, off + |s| - |e.rest|)
       case _ => false
  }

  lemma OverflowIsOverrun(s: seq<byte>, off: nat)
    ensures ScanElement(s, off).Overflow? <==> LengthOverruns(s, off)
  {
    hide DigitRun, Value;
  }

  lemma {:induction false} InstructionOverruns(s: seq<byte>, off: nat, t: seq<byte>)
    requires |s| <= ISIZE_MAX && Utf8.Valid(s + t)
    ensures match ScanInstruction(s, off)
            case Overflows => Overruns(s, off)
            case Size(n) => Overruns(s, off) <==> n != 0 && Overruns(s[n..], off + n)
    decreases |s|
  {
    hide Utf8.Valid, ScanElement, DecodeElement, LengthOverruns;
    OverflowIsOverrun(s, off);
    var e := ScanElement(s, off);
    if !e.Overflow? {
      ScanMatchesElement(s, off, t);
    }
    if e.Item? {
      ElementIsValid(s, off, t);
      if !e.last {
        InstructionOverruns(s[e.size..], off + e.size, t);
        var m := ScanInstruction(s[e.size..], off + e.size);
        assert m.Size? && m.n != 0 ==> s[e.size..][m.n..] == s[e.size + m.n..];
      }
    }
  }

  /**
   On any stretch of a valid UTF-8 stream the scan finds exactly the longest prefix the reader can
   consume as whole instructions, unless the position overflows at a length on the way.
   */
  lemma {:induction false} ScanMatchesReader(s: seq<byte>, off: nat, t: seq<byte>)
    requires |s| <= ISIZE_MAX && Utf8.Valid(s + t)
    ensures ScanAll(s, off) == if Overruns(s, off) then Overflows else Size(Readable(s))
    decreases |s|
  {
    hide Utf8.Valid, ScanInstruction, DecodeElements, Overruns;
    InstructionOverruns(s, off, t);
    if ScanInstruction(s, off).Size? {
      ScanMatchesInstruction(s, off, t);
      var n := ScanInstruction(s, off).n;
      if n != 0 {
        ScanMatchesReader(s[n..], off + n, t);
      }
    }
  }

  /** No digits before a dot, wherever they stand, make a number that reaches past `usize` from there. */
  ghost predicate NoHugeLengths(s: seq<byte>, off: nat) {
    forall i, j | 0 <= i < j < |s| && s[j] == DOT && AllDigits(s[i..j]) :: !(Value(s[i..j]) < USIZE <= off + j + 1 + Value(s[i..j]))
  }

  /** That is enough for the scan to be right. */
  lemma {:induction false} NoHugeLengthsNoOverrun(s: seq<byte>, off: nat)
    requires NoHugeLengths(s, off)
    ensures !Overruns(s, off)
    decreases |s|
  {
    hide Value, DigitRun;
    var k := DigitRun(s);
    assert s[0..k] == s[..k];
    var d := DecodeElement(s);
    if d.Ok? {
      var rest := d.value.rest;
      var m := |s| - |rest|;
      RestIsTail(s);
      hide DecodeElement;
      forall i, j | 0 <= i < j < |rest| && rest[j] == DOT && AllDigits(rest[i..j])
        ensures !(Value(rest[i..j]) < USIZE <= off + m + j + 1 + Value(rest[i..j]))
      {
        assert rest[i..j] == s[m + i..m + j] && s[m + j] == DOT;
      }
      NoHugeLengthsNoOverrun(rest, off + m);
    }
  }

  lemma RestIsTail(s: seq<byte>)
    requires DecodeElement(s).Ok?
    ensures var rest := DecodeElement(s).value.rest; |rest| <= |s| && rest == s[|s| - |rest|..]
  {
    hide Value, DigitRun, Utf8.Valid;
  }

  /** Exactly which declared lengths leave `usize` when they are added to the position. */
  lemma OverflowIff(n: nat, t: seq<byte>, off: nat)
    ensures ScanElement(Digits(n) + [DOT] + t, off).Overflow? <==> n < USIZE <= off + |Digits(n)| + 1 + n
  {
    hide Digits;
    hide Value;
    hide DigitRun;
    var d, s := Digits(n), Digits(n) + [DOT] + t;
    assert s[..|d|] == d && s[|d|] == DOT;
    DigitRunIs(s, |d|);
    ValueOfDigits(n);
  }

  /** Whole instructions, then a length that reaches past `usize`: none of them is found, though the reader can consume them. */
  lemma OverflowHidesInstructions(es: seq<seq<byte>>, n: nat, t: seq<byte>)
    requires es != [] && Strings(es) && |EncodeElements(es)| + |Digits(n)| < ISIZE_MAX
    requires n < USIZE <= |EncodeElements(es)| + |Digits(n)| + 1 + n
    ensures var s := EncodeElements(es) + (Digits(n) + [DOT] + t);
      ScanAll(s, 0) == Overflows && Readable(s) == |EncodeElements(es)| && 0 < |EncodeElements(es)|
  {
    var first, tail := EncodeElements(es), Digits(n) + [DOT] + t;
    assert (first + tail)[|first|..] == tail;
    assert first != [] by { DecodeInvertsElements(es, []); assert first + [] == first; }
    DecodeInvertsElements(es, tail);
    ScanEncoded(es, tail, 0);
    OverflowIff(n, tail[|Digits(n)| + 1..], |first|);
    assert tail == Digits(n) + [DOT] + tail[|Digits(n)| + 1..];
    TailPanics(n, t);
    hide Digits, EncodeElements, ScanElement, DecodeElement;
  }

  lemma TailPanics(n: nat, t: seq<byte>)
    requires ISIZE_MAX < n
    ensures DecodeElement(Digits(n) + [DOT] + t) == Panic
  {
    hide Digits, Value, DigitRun;
    var d, s := Digits(n), Digits(n) + [DOT] + t;
    assert s[..|d|] == d && s[|d|] == DOT;
    DigitRunIs(s, |d|);
    ValueOfDigits(n);
  }

  // ---- A build without overflow checks ----

  /** Where the inner loop stands; `done` once the function has returned `lastEnd`. */
  datatype Scanner = Scanner(pos: nat, lastEnd: Option<nat>, done: bool)

  /** One turn of the loop when the sum of position and length wraps around. */
  function WrappedTurn(buf: seq<byte>, at: Scanner): (r: Scanner)
    requires at.pos <= |buf|
    ensures r.pos <= |buf|
  {
    var s := buf[at.pos..];
    var k := DigitRun(s);
    var stop := at.(done := true);
    if at.done || k == 0 || k == |s| || s[k] != DOT || USIZE <= Value(s[..k]) then stop
    else
      var pos := (at.pos + k + 1 + Value(s[..k])) % USIZE;
      if |buf| <= pos then stop
      else if buf[pos] == COMMA then at.(pos := pos + 1)
      else if buf[pos] == SEMI then Scanner(pos + 1, Some(pos + 1), false)
      else stop
  }

  function WrappedTurns(buf: seq<byte>, n: nat): (r: Scanner)
    ensures r.pos <= |buf|
  {
    if n == 0 then Scanner(0, None, false) else WrappedTurn(buf, WrappedTurns(buf, n - 1))
  }

  lemma TurnScans(buf: seq<byte>, at: Scanner)
    requires at.pos <= |buf| && !at.done && !ScanElement(buf[at.pos..], at.pos).Overflow?
    ensures WrappedTurn(buf, at) ==
            match ScanElement(buf[at.pos..], at.pos)
            case Item(_, last, size) => Scanner(at.pos + size, if last then Some(at.pos + size) else at.lastEnd, false)
            case _ => at.(done := true)
  {
    hide DigitRun, Value;
  }

  lemma ScanStateStart(buf: seq<byte>)
    ensures ScanState(ScanAll(buf, 0), buf, 0, 0)
  {
    assert buf[0..] == buf;
  }

  lemma ScanStateStop(all: Extent, buf: seq<byte>, start: nat, pos: nat)
    requires ScanState(all, buf, start, pos) && ScanElement(buf[pos..], pos).Stop?
    ensures all == Size(start)
  {
    hide ScanElement;
  }

  lemma NoOverflowYet(all: Extent, buf: seq<byte>, start: nat, pos: nat)
    requires ScanState(all, buf, start, pos) && all.Size?
    ensures !ScanElement(buf[pos..], pos).Overflow?
  {
    hide ScanElement;
  }

  /** As long as nothing overflows, that build comes to the same end. */
  lemma WrappedAgrees(buf: seq<byte>) returns (n: nat)
    requires ScanAll(buf, 0).Size?
    ensures var m := ScanAll(buf, 0).n;
      WrappedTurns(buf, n).done && WrappedTurns(buf, n).lastEnd == if m == 0 then None else Some(m)
  {
    hide ScanElement, WrappedTurn, ScanState, ScanAll;
    n := 0;
    ghost var start := 0;
    ScanStateStart(buf);
    while !WrappedTurns(buf, n).done
      invariant var at := WrappedTurns(buf, n);
        if at.done then at.lastEnd == if ScanAll(buf, 0).n == 0 then None else Some(ScanAll(buf, 0).n)
        else at.lastEnd == (if start == 0 then None else Some(start)) && ScanState(ScanAll(buf, 0), buf, start, at.pos)
      decreases !WrappedTurns(buf, n).done, |buf| - WrappedTurns(buf, n).pos
    {
      var at := WrappedTurns(buf, n);
      var e := ScanElement(buf[at.pos..], at.pos);
      NoOverflowYet(ScanAll(buf, 0), buf, start, at.pos);
      TurnScans(buf, at);
      n := n + 1;
      if e.Stop? {
        ScanStateStop(ScanAll(buf, 0), buf, start, at.pos);
      } else {
        if e.last {
          ScanStateEnd(ScanAll(buf, 0), buf, start, at.pos);
          start := at.pos + e.size;
        } else {
          ScanStateItem(ScanAll(buf, 0), buf, start, at.pos);
        }
      }
    }
  }

  /** The dot of the length brings the position back onto the comma before it, again and again. */
  lemma {:induction false} WrappedLoops(e: seq<byte>, n: nat, t: seq<byte>, k: nat)
    requires IsString(e) && n + |Digits(n)| + 2 == USIZE && 0 < k
    requires |EncodeElement(e) + [COMMA] + (Digits(n) + [DOT] + t)| <= ISIZE_MAX
    ensures WrappedTurns(EncodeElement(e) + [COMMA] + (Digits(n) + [DOT] + t), k) == Scanner(|EncodeElement(e)| + 1, None, false)
  {
    var x, d, tail := EncodeElement(e), Digits(n), Digits(n) + [DOT] + t;
    var buf := x + [COMMA] + tail;
    hide WrappedTurn, Digits, EncodeElement, ScanElement;
    if k == 1 {
      assert buf[0..] == buf;
      ScanEncodedElement(e, COMMA, tail, 0);
      TurnScans(buf, Scanner(0, None, false));
      assert WrappedTurns(buf, 0) == Scanner(0, None, false);
    } else {
      WrappedLoops(e, n, t, k - 1);
      JumpsBack(x, n, t);
    }
  }

  lemma JumpsBack(x: seq<byte>, n: nat, t: seq<byte>)
    requires n + |Digits(n)| + 2 == USIZE && |x| + 1 + |Digits(n)| + 1 + |t| <= ISIZE_MAX
    ensures var buf, at := x + [COMMA] + (Digits(n) + [DOT] + t), Scanner(|x| + 1, None, false);
      WrappedTurn(buf, at) == at
  {
    var d, s := Digits(n), Digits(n) + [DOT] + t;
    var buf := x + [COMMA] + s;
    hide Digits, Value, DigitRun;
    assert buf[|x| + 1..] == s && buf[|x|] == COMMA;
    assert s[..|d|] == d && s[|d|] == DOT;
    DigitRunIs(s, |d|);
    ValueOfDigits(n);
    assert (|x| + 1 + |d| + 1 + n) % USIZE == |x|;
  }

  /** The one length that does: 18446744073709551594, of twenty digits. */
  lemma LoopingLength(n: nat)
    requires n == 18446744073709551594
    ensures n + |Digits(n)| + 2 == USIZE
  {
    assert Pow10(20) == 10 * Pow10(19) && Pow10(19) == 10_000_000_000_000_000_000 by {
      assert Pow10(4) == 10_000 && Pow10(8) == 100_000_000 && Pow10(12) == 1_000_000_000_000;
      assert Pow10(16) == 10_000_000_000_000_000;
    }
    DigitsAtMost(n, 20);
    DigitsAbove(n, 19);
  }

  // ---- The scan on encoded streams ----

  lemma ScanEncodedElement(e: seq<byte>, sep: byte, t: seq<byte>, off: nat)
    requires IsString(e) && (sep == COMMA || sep == SEMI)
    requires off + |EncodeElement(e)| < USIZE
    ensures ScanElement(EncodeElement(e) + [sep] + t, off) == Item(e, sep == SEMI, |EncodeElement(e)| + 1)
  {
    hide Digits;
    hide Value;
    hide DigitRun;
    hide Utf8.Valid;
    var d, s := Digits(|e|), EncodeElement(e) + [sep] + t;
    assert s[..|d|] == d && s[|d|] == DOT;
    DigitRunIs(s, |d|);
    ValueOfDigits(|e|);
    assert s[|d| + 1..|d| + 1 + |e|] == e && s[|d| + 1 + |e|] == sep;
  }

  lemma {:induction false} ScanEncoded(es: seq<seq<byte>>, t: seq<byte>, off: nat)
    requires es != [] && Strings(es) && off + |EncodeElements(es)| < USIZE
    ensures ScanInstruction(EncodeElements(es) + t, off) == Size(|EncodeElements(es)|)
  {
    hide ScanElement;
    EncodeUnfold(es, t);
    var head := EncodeElement(es[0]);
    assert IsString(es[0]);
    if |es| == 1 {
      ScanEncodedElement(es[0], SEMI, t, off);
    } else {
      var more := EncodeElements(es[1..]);
      assert |EncodeElements(es)| == |head| + 1 + |more| && Strings(es[1..]);
      ScanEncodedElement(es[0], COMMA, more + t, off);
      assert (head + [COMMA] + (more + t))[|head| + 1..] == more + t;
      ScanEncoded(es[1..], t, off + |head| + 1);
    }
  }

  /** An element cut off before its separator. */
  lemma ScanCutElement(e: seq<byte>, p: seq<byte>, off: nat)
    requires IsString(e) && p <= EncodeElement(e) && off + |p| <= ISIZE_MAX
    ensures ScanElement(p, off) == Stop
  {
    hide Digits;
    hide Value;
    hide DigitRun;
    hide Utf8.Valid;
    var d, s := Digits(|e|), EncodeElement(e);
    if |p| <= |d| {
      assert p == d[..|p|];
      DigitRunIs(p, |p|);
    } else {
      assert p[..|d|] == s[..|d|] == d && p[|d|] == s[|d|] == DOT;
      DigitRunIs(p, |d|);
      ValueOfDigits(|e|);
    }
  }

  /** No proper prefix of an instruction is taken for a complete one. */
  lemma {:induction false} ScanCutInstruction(es: seq<seq<byte>>, p: seq<byte>, off: nat)
    requires es != [] && Strings(es) && p < EncodeElements(es) && off + |p| <= ISIZE_MAX
    ensures ScanInstruction(p, off) == Size(0)
  {
    hide ScanElement;
    hide EncodeElement;
    var head, all := EncodeElement(es[0]), EncodeElements(es);
    assert IsString(es[0]);
    assert all[..|head|] == head;
    if |p| <= |head| {
      assert p == all[..|p|] == head[..|p|];
      ScanCutElement(es[0], p, off);
    } else {
      assert |es| > 1 && Strings(es[1..]);
      var more := EncodeElements(es[1..]);
      assert all == head + [COMMA] + more;
      var q := p[|head| + 1..];
      assert p == all[..|p|] == head + [COMMA] + q;
      assert q == more[..|q|] && q != more;
      ScanEncodedElement(es[0], COMMA, q, off);
      ScanCutInstruction(es[1..], q, off + |head| + 1);
    }
  }

  /** What may be left in the carry buffer: nothing, or an instruction that is not all there yet. */
  predicate Unfinished(instrs: seq<Instruction>, k: nat, p: seq<byte>)
    requires k <= |instrs|
  {
    p == [] || (k < |instrs| && p < Encode(instrs[k]))
  }

  lemma EncodeAllPrefix(instrs: seq<Instruction>, k: nat)
    requires 0 < k <= |instrs|
    ensures EncodeAll(instrs[..k]) == Encode(instrs[0]) + EncodeAll(instrs[1..][..k - 1])
  {
    hide Encode;
    assert instrs[..k][0] == instrs[0] && instrs[..k][1..] == instrs[1..][..k - 1];
  }

  /** The scan goes on behind the first instruction. */
  lemma ScanPast(first: seq<byte>, t: seq<byte>, off: nat, m: nat)
    requires ScanInstruction(first + t, off) == Size(|first|) && first != []
    requires ScanAll(t, off + |first|) == Size(m)
    ensures ScanAll(first + t, off) == Size(|first| + m)
  {
    hide ScanInstruction;
    assert (first + t)[|first|..] == t;
  }

  lemma {:induction false} ScanStream(instrs: seq<Instruction>, k: nat, p: seq<byte>, off: nat)
    requires AllStrings(instrs) && k <= |instrs| && Unfinished(instrs, k, p)
    requires off + |EncodeAll(instrs[..k])| + |p| <= ISIZE_MAX
    ensures ScanAll(EncodeAll(instrs[..k]) + p, off) == Size(|EncodeAll(instrs[..k])|)
    decreases k
  {
    hide ScanInstruction;
    if k == 0 {
      assert EncodeAll(instrs[..0]) + p == p;
      if p == [] {
        ScanNothing(off);
      } else {
        ScanCutInstruction(instrs[0].Elements(), p, off);
      }
    } else {
      var i, rest := instrs[0], instrs[1..];
      var first, more := Encode(i), EncodeAll(rest[..k - 1]);
      EncodeAllPrefix(instrs, k);
      assert first != [] && first == EncodeElements(i.Elements()) && Strings(i.Elements()) && AllStrings(rest);
      assert Unfinished(rest, k - 1, p) by {
        assert k - 1 < |rest| ==> rest[k - 1] == instrs[k];
      }
      hide *;
      Assoc(first, more, p);
      ScanEncoded(i.Elements(), more + p, off);
      ScanStream(rest, k - 1, p, off + |first|);
      ScanPast(first, more + p, off, |more|);
    }
  }

  lemma ScanNothing(off: nat)
    ensures ScanInstruction([], off) == Size(0)
  {}

  /** Any prefix of an encoded stream is a number of whole instructions and an unfinished one. */
  lemma {:induction false} SplitPrefix(instrs: seq<Instruction>, b: seq<byte>) returns (k: nat)
    requires b <= EncodeAll(instrs)
    ensures k <= |instrs| && EncodeAll(instrs[..k]) <= b
    ensures Unfinished(instrs, k, b[|EncodeAll(instrs[..k])|..])
  {
    hide Encode;
    if instrs == [] {
      k := 0;
    } else {
      var first, all := Encode(instrs[0]), EncodeAll(instrs);
      if |b| < |first| {
        k := 0;
        assert b == all[..|b|] == first[..|b|];
        assert b[|EncodeAll(instrs[..0])|..] == b;
      } else {
        var rest := b[|first|..];
        assert b == all[..|b|] == first + rest;
        assert rest <= EncodeAll(instrs[1..]) by {
          assert all[|first|..] == EncodeAll(instrs[1..]);
          assert rest == all[|first|..][..|rest|];
        }
        var j := SplitPrefix(instrs[1..], rest);
        k := j + 1;
        assert instrs[..k][0] == instrs[0] && instrs[..k][1..] == instrs[1..][..j];
        assert b[|EncodeAll(instrs[..k])|..] == rest[|EncodeAll(instrs[1..][..j])|..];
      }
    }
  }

  // ---- The bridge ----

  /** The size of the read buffer. */
  const READ_BUF: nat := 65536

  /** The text messages sent to the browser so far, and the bytes kept for later. */
  datatype Bridge = Bridge(sent: seq<seq<byte>>, carry: seq<byte>)

  /** What one read makes the bridge do. */
  function Received(b: Bridge, chunk: seq<byte>): Result<Bridge> {
    var carry := b.carry + chunk;
    match ScanAll(carry, 0)
    case Overflows => Panic
    case Size(n) => Ok(if n == 0 then Bridge(b.sent, carry) else Bridge(b.sent + [carry[..n]], carry[n..]))
  }

  function ReceivedAll(chunks: seq<seq<byte>>): Result<Bridge> {
    if chunks == [] then Ok(Bridge([], []))
    else
      match ReceivedAll(chunks[..|chunks| - 1])
      case Ok(b) => Received(b, chunks[|chunks| - 1])
      case other => other
  }

  /** One read: extend the carry buffer and send what is complete. */
  method OnRead(b: Bridge, buf: seq<byte>) returns (res: Result<Bridge>)
    ensures res == Received(b, buf)
  {
    var carry := b.carry + buf;
    var end := LastInstructionEnd(carry);
    match end
    case Ok(Some(e)) => return Ok(Bridge(b.sent + [carry[..e]], carry[e..]));
    case Ok(None) => return Ok(Bridge(b.sent, carry));
    case _ => return Panic;
  }

  /** The loop that relays the gateway stream to the browser. */
  method RelayToBrowser(gateway: ByteStream) returns (res: Result<Bridge>, ghost chunks: seq<seq<byte>>)
    modifies gateway
    ensures res == ReceivedAll(chunks)
    ensures Concat(chunks) <= old(gateway.pending) && (res.Ok? ==> Concat(chunks) == old(gateway.pending))
    ensures forall c <- chunks :: |c| <= READ_BUF
  {
    hide Received;
    res, chunks := Ok(Bridge([], [])), [];
    while res.Ok?
      invariant res == ReceivedAll(chunks)
      invariant Concat(chunks) + gateway.pending == old(gateway.pending)
      invariant forall c <- chunks :: |c| <= READ_BUF
      decreases |gateway.pending|, res.Ok?
    {
      var buf := gateway.Read(READ_BUF);
      if buf == [] {
        return;
      }
      ConcatSnoc(chunks, buf);
      assert (chunks + [buf])[..|chunks|] == chunks;
      chunks := chunks + [buf];
      res := OnRead(res.value, buf);
    }
  }

  /** A non-empty run of whole instructions of the stream. */
  ghost predicate WholeMessage(instrs: seq<Instruction>, m: seq<byte>) {
    m != [] && Utf8.Valid(m) && exists i, j :: 0 <= i < j <= |instrs| && m == EncodeAll(instrs[i..j])
  }

  /** Every instruction and one more read fit a buffer. */
  predicate Fits(instrs: seq<Instruction>) {
    forall i <- instrs :: |Encode(i)| + READ_BUF <= ISIZE_MAX
  }

  lemma {:induction false} EncodeAllAppend(a: seq<Instruction>, b: seq<Instruction>)
    ensures EncodeAll(a + b) == EncodeAll(a) + EncodeAll(b)
  {
    hide Encode;
    if a == [] {
      assert a + b == b;
    } else {
      EncodeAllAppend(a[1..], b);
      assert (a + b)[0] == a[0] && (a + b)[1..] == a[1..] + b;
      Assoc(Encode(a[0]), EncodeAll(a[1..]), EncodeAll(b));
    }
  }

  lemma {:induction false} EncodedElementsValid(es: seq<seq<byte>>)
    requires es != [] && Strings(es)
    ensures Utf8.Valid(EncodeElements(es))
  {
    hide Utf8.Valid;
    var e := es[0];
    assert IsString(e);
    Utf8.AsciiValid(Digits(|e|) + [DOT]);
    Utf8.ValidConcat(Digits(|e|) + [DOT], e);
    if |es| == 1 {
      Utf8.AsciiValid([SEMI]);
      Utf8.ValidConcat(EncodeElement(e), [SEMI]);
    } else {
      assert Strings(es[1..]);
      EncodedElementsValid(es[1..]);
      Utf8.AsciiValid([COMMA]);
      Utf8.ValidConcat([COMMA], EncodeElements(es[1..]));
      Utf8.ValidConcat(EncodeElement(e), [COMMA] + EncodeElements(es[1..]));
    }
  }

  lemma {:induction false} EncodedValid(instrs: seq<Instruction>)
    requires AllStrings(instrs)
    ensures Utf8.Valid(EncodeAll(instrs))
  {
    if instrs != [] {
      assert Strings(instrs[0].Elements()) && AllStrings(instrs[1..]);
      EncodedElementsValid(instrs[0].Elements());
      EncodedValid(instrs[1..]);
      Utf8.ValidConcat(Encode(instrs[0]), EncodeAll(instrs[1..]));
    }
  }

  /** The bridge has sent the first `k` instructions and holds back part of the next. */
  ghost predicate Sent(instrs: seq<Instruction>, b: Bridge, k: nat) {
    && k <= |instrs| && Unfinished(instrs, k, b.carry)
    && Concat(b.sent) == EncodeAll(instrs[..k])
    && forall m <- b.sent :: WholeMessage(instrs, m)
  }

  /** The carry buffer with the new read is a stretch of the instructions not sent yet. */
  lemma CarryFits(instrs: seq<Instruction>, b: Bridge, k: nat, chunk: seq<byte>)
    requires Fits(instrs) && Sent(instrs, b, k) && |chunk| <= READ_BUF
    requires EncodeAll(instrs[..k]) + b.carry + chunk <= EncodeAll(instrs)
    ensures b.carry + chunk <= EncodeAll(instrs[k..]) && |b.carry + chunk| <= ISIZE_MAX
  {
    assert instrs == instrs[..k] + instrs[k..];
    EncodeAllAppend(instrs[..k], instrs[k..]);
    Assoc(EncodeAll(instrs[..k]), b.carry, chunk);
    PrefixTail(EncodeAll(instrs[..k]), b.carry + chunk, EncodeAll(instrs[k..]));
    assert b.carry != [] ==> instrs[k] in instrs;
  }

  /** The scan cuts such a stretch after its last whole instruction. */
  lemma CarryCut(left: seq<Instruction>, carry: seq<byte>) returns (j: nat)
    requires AllStrings(left) && carry <= EncodeAll(left) && |carry| <= ISIZE_MAX
    ensures j <= |left| && ScanAll(carry, 0) == Size(|EncodeAll(left[..j])|)
    ensures carry[..|EncodeAll(left[..j])|] == EncodeAll(left[..j])
    ensures Unfinished(left, j, carry[|EncodeAll(left[..j])|..])
  {
    hide ScanAll;
    j := SplitPrefix(left, carry);
    var m := EncodeAll(left[..j]);
    assert carry == m + carry[|m|..];
    ScanStream(left, j, carry[|m|..], 0);
  }

  lemma Forward(instrs: seq<Instruction>, b: Bridge, k: nat, chunk: seq<byte>) returns (k': nat)
    requires AllStrings(instrs) && Fits(instrs) && Sent(instrs, b, k) && |chunk| <= READ_BUF
    requires EncodeAll(instrs[..k]) + b.carry + chunk <= EncodeAll(instrs)
    ensures Received(b, chunk).Ok? && Sent(instrs, Received(b, chunk).value, k')
  {
    hide ScanAll;
    hide EncodeAll;
    var left, carry := instrs[k..], b.carry + chunk;
    CarryFits(instrs, b, k, chunk);
    assert forall i <- left :: i in instrs;
    var j := CarryCut(left, carry);
    k' := k + j;
    assert left[..j] == instrs[k..k'] && instrs[..k'] == instrs[..k] + instrs[k..k'];
    EncodeAllAppend(instrs[..k], instrs[k..k']);
    assert j < |left| ==> left[j] == instrs[k'];
    if j == 0 {
      EncodeNothing(left[..j]);
      assert carry[0..] == carry && instrs[..k'] == instrs[..k];
    } else {
      MessageWhole(instrs, k, k');
      ConcatSnoc(b.sent, EncodeAll(instrs[k..k']));
    }
  }

  lemma EncodeNothing(instrs: seq<Instruction>)
    requires instrs == []
    ensures EncodeAll(instrs) == []
  {}

  lemma MessageWhole(instrs: seq<Instruction>, i: nat, j: nat)
    requires AllStrings(instrs) && i < j <= |instrs|
    ensures WholeMessage(instrs, EncodeAll(instrs[i..j]))
    ensures EncodeAll(instrs[i..j]) != []
  {
    assert forall x <- instrs[i..j] :: x in instrs;
    EncodedValid(instrs[i..j]);
    assert |EncodeAll(instrs[i..j])| >= |Encode(instrs[i..j][0])|;
  }

  /**
   However the encoded stream is cut into reads, every message is a non-empty run of whole
   instructions in valid UTF-8, nothing is lost, and what is held back is an unfinished instruction.
   */
  lemma {:induction false} MessagesAreWhole(instrs: seq<Instruction>, chunks: seq<seq<byte>>) returns (k: nat)
    requires AllStrings(instrs) && Fits(instrs)
    requires Concat(chunks) <= EncodeAll(instrs) && forall c <- chunks :: |c| <= READ_BUF
    ensures ReceivedAll(chunks).Ok?
    ensures var b := ReceivedAll(chunks).value;
      Sent(instrs, b, k) && Concat(b.sent) + b.carry == Concat(chunks)
  {
    if chunks == [] {
      k := 0;
      assert Concat([]) + [] == Concat(chunks);
    } else {
      var init, last := chunks[..|chunks| - 1], chunks[|chunks| - 1];
      assert chunks == init + [last] && last in chunks;
      ConcatSnoc(init, last);
      assert Concat(init) <= EncodeAll(instrs) by { assert Concat(init) == Concat(chunks)[..|Concat(init)|]; }
      var j := MessagesAreWhole(instrs, init);
      var b := ReceivedAll(init).value;
      k := Forward(instrs, b, j, last);
      ReceivedConserves(b, last);
    }
  }

  /** A read is either kept or sent on, in order. */
  lemma ReceivedConserves(b: Bridge, chunk: seq<byte>)
    requires Received(b, chunk).Ok?
    ensures var b' := Received(b, chunk).value; Concat(b'.sent) + b'.carry == Concat(b.sent) + b.carry + chunk
  {
    var n, carry := ScanAll(b.carry + chunk, 0).n, b.carry + chunk;
    Assoc(Concat(b.sent), b.carry, chunk);
    if n != 0 {
      ConcatSnoc(b.sent, carry[..n]);
      Assoc(Concat(b.sent), carry[..n], carry[n..]);
      assert carry[..n] + carry[n..] == carry;
    }
  }
}
