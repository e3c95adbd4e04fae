/**
 Guacamole instructions: `LENGTH.VALUE,LENGTH.VALUE,...;` with lengths in UTF-8 bytes.
 The encoder, the sequential reader of the gateway, and their round trip.
 */
module GuacCodec {
  import opened Wrappers
  import opened Bytes
  import opened Decimal
  import Utf8

  const DOT: byte := 46
  const COMMA: byte := 44
  const SEMI: byte := 59

  /** One opcode and its arguments; Rust strings, so valid UTF-8 within the allocation limit. */
  datatype Instruction = Instruction(opcode: seq<byte>, args: seq<seq<byte>>) {
    function Elements(): (es: seq<seq<byte>>)
      ensures es != []
    {
      [opcode] + args
    }
  }

  predicate IsString(s: seq<byte>) {
    Utf8.Valid(s) && |s| <= ISIZE_MAX
  }

  predicate Strings(es: seq<seq<byte>>) {
    forall e <- es :: IsString(e)
  }

  // ---- Encoding ----

  function EncodeElement(s: seq<byte>): seq<byte> {
    Digits(|s|) + [DOT] + s
  }

  /** Elements separated by commas and closed by a semicolon. */
  function EncodeElements(es: seq<seq<byte>>): (s: seq<byte>)
    requires es != []
    ensures s != []
  {
    EncodeElement(es[0]) + if |es| == 1 then [SEMI] else [COMMA] + EncodeElements(es[1..])
  }

  function Encode(i: Instruction): seq<byte> {
    EncodeElements(i.Elements())
  }

  function EncodeAll(instrs: seq<Instruction>): seq<byte> {
    if instrs == [] then [] else Encode(instrs[0]) + EncodeAll(instrs[1..])
  }

  lemma {:induction false} EncodeElementsSnoc(es: seq<seq<byte>>, e: seq<byte>)
    requires es != []
    ensures var out := EncodeElements(es);
      EncodeElements(es + [e]) == out[..|out| - 1] + [COMMA] + EncodeElement(e) + [SEMI]
  {
    hide EncodeElement;
    var head := EncodeElement(es[0]);
    assert (es + [e])[1..] == es[1..] + [e];
    if |es| == 1 {
      assert es[1..] + [e] == [e];
    } else {
      EncodeElementsSnoc(es[1..], e);
      var more := EncodeElements(es[1..]);
      assert (head + ([COMMA] + more))[..|head| + |more|] == head + [COMMA] + more[..|more| - 1];
    }
  }

  /** `Instruction::encode` */
  method EncodeInstruction(i: Instruction) returns (out: seq<byte>)
    ensures out == Encode(i)
  {
    out := EncodeElement(i.opcode);
    assert [i.opcode] + i.args[..0] == [i.opcode];
    for k := 0 to |i.args|
      invariant out + [SEMI] == EncodeElements([i.opcode] + i.args[..k])
    {
      EncodeElementsSnoc([i.opcode] + i.args[..k], i.args[k]);
      assert [i.opcode] + i.args[..k + 1] == [i.opcode] + i.args[..k] + [i.args[k]];
      assert (out + [SEMI])[..|out|] == out;
      out := out + [COMMA];
      out := out + EncodeElement(i.args[k]);
    }
    assert i.args[..|i.args|] == i.args;
    out := out + [SEMI];
  }

  /** Every element is its length in decimal, a dot and its bytes; commas stand between elements, a semicolon at the end. */
  lemma WireSpelled(e: seq<byte>, es: seq<seq<byte>>)
    ensures EncodeElements([e]) == Digits(|e|) + Ascii(".") + e + Ascii(";")
    ensures es != [] ==> EncodeElements([e] + es) == Digits(|e|) + Ascii(".") + e + Ascii(",") + EncodeElements(es)
  {
    assert [DOT] == Ascii(".") && [COMMA] == Ascii(",") && [SEMI] == Ascii(";");
    assert ([e] + es)[0] == e && ([e] + es)[1..] == es;
    hide Digits;
  }

  lemma OpcodeFirst(i: Instruction)
    ensures Encode(i) == EncodeElements([i.opcode] + i.args)
  {}

  // ---- Decoding ----

  datatype Element = Element(value: seq<byte>, last: bool, rest: seq<byte>)

  /**
   One element and its separator. A length prefix is parsed with an unwrap, so one that does not
   fit a `usize` panics; one beyond the allocation limit panics when the buffer is made.
   */
  function DecodeElement(s: seq<byte>): (r: Result<Element>)
    ensures r.Ok? ==> |r.value.rest| < |s|
  {
    var k := DigitRun(s);
    if k == |s| || s[k] != DOT || k == 0 then Err
    else
      var len := Value(s[..k]);
      if ISIZE_MAX < len then Panic
      else
        var body := s[k + 1..];
        if |body| < len || !Utf8.Valid(body[..len]) then Err
        else if |body| == len || (body[len] != COMMA && body[len] != SEMI) then Err
        else Ok(Element(body[..len], body[len] == SEMI, body[len + 1..]))
  }

  /** An element is read when a numeral, a dot, as many bytes of UTF-8 and a comma or semicolon stand there. */
  lemma ElementReads(d: seq<byte>, e: seq<byte>, sep: byte, rest: seq<byte>)
    requires d != [] && AllDigits(d) && Value(d) == |e| && IsString(e) && sep in Ascii(",;")
    ensures DecodeElement(d + Ascii(".") + e + [sep] + rest) == Ok(Element(e, [sep] == Ascii(";"), rest))
  {
    hide Value, DigitRun, Utf8.Valid;
    assert [DOT] == Ascii(".") && [COMMA, SEMI] == Ascii(",;") && [SEMI] == Ascii(";");
    var s := d + Ascii(".") + e + [sep] + rest;
    assert s[..|d|] == d && s[|d|] == DOT;
    DigitRunIs(s, |d|);
    var body := s[|d| + 1..];
    assert body == e + ([sep] + rest) && body[..|e|] == e && body[|e| + 1..] == rest;
  }

  /** And only then. */
  lemma ElementSpelled(s: seq<byte>) returns (d: seq<byte>)
    requires DecodeElement(s).Ok?
    ensures var r := DecodeElement(s).value;
      && d != [] && AllDigits(d) && Value(d) == |r.value| && IsString(r.value)
      && s == d + Ascii(".") + r.value + Ascii(if r.last then ";" else ",") + r.rest
  {
    Separators();
    var k := DigitRun(s);
    d := s[..k];
    hide Value, DigitRun, Utf8.Valid, Ascii;
    var len, body := Value(d), s[k + 1..];
    PartsOf(body, len);
    PartsOf(s, k);
    hide *;
    var r := DecodeElement(s).value;
    assert d + [s[k]] + (r.value + [body[len]] + r.rest) == d + [s[k]] + r.value + [body[len]] + r.rest;
  }

  lemma Separators()
    ensures [DOT] == Ascii(".") && [COMMA] == Ascii(",") && [SEMI] == Ascii(";")
  {}

  lemma PartsOf(s: seq<byte>, k: nat)
    requires k < |s|
    ensures s == s[..k] + [s[k]] + s[k + 1..]
  {}

  /** A length beyond the allocation limit panics, and nothing else does. */
  lemma ElementPanics(s: seq<byte>)
    ensures DecodeElement(s).Panic? <==>
            exists k: nat :: 0 < k < |s| && AllDigits(s[..k]) && [s[k]] == Ascii(".") && 0x7fff_ffff_ffff_ffff < Value(s[..k])
  {
    assert [DOT] == Ascii(".");
    hide Value, Utf8.Valid, Ascii, DigitRun;
    if k: nat :| 0 < k < |s| && AllDigits(s[..k]) && [s[k]] == Ascii(".") && ISIZE_MAX < Value(s[..k]) {
      assert s[k] == [DOT][0];
      DigitRunIs(s, k);
    }
  }

  datatype Decoded = Decoded(elements: seq<seq<byte>>, rest: seq<byte>)

  function DecodeElements(s: seq<byte>): (r: Result<Decoded>)
    ensures r.Ok? ==> r.value.elements != [] && |r.value.rest| < |s|
    decreases |s|
  {
    match DecodeElement(s)
    case Err => Err
    case Panic => Panic
    case Ok(e) =>
      if e.last then Ok(Decoded([e.value], e.rest))
      else
        match DecodeElements(e.rest)
        case Err => Err
        case Panic => Panic
        case Ok(more) => Ok(Decoded([e.value] + more.elements, more.rest))
  }

  function ToInstruction(es: seq<seq<byte>>): Instruction
    requires es != []
  {
    Instruction(es[0], es[1..])
  }

  lemma DecodeOneElement(e: seq<byte>, sep: byte, rest: seq<byte>)
    requires IsString(e) && (sep == COMMA || sep == SEMI)
    ensures DecodeElement(EncodeElement(e) + [sep] + rest) == Ok(Element(e, sep == SEMI, rest))
  {
    hide Digits;
    hide Value;
    hide DigitRun;
    hide Utf8.Valid;
    var d, s := Digits(|e|), EncodeElement(e) + [sep] + rest;
    assert s[..|d|] == d && s[|d|] == DOT;
    DigitRunIs(s, |d|);
    ValueOfDigits(|e|);
    assert s[|d| + 1..] == e + ([sep] + rest);
    assert s[|d| + 1..][..|e|] == e;
    assert s[|d| + 1..][|e| + 1..] == rest;
  }

  lemma EncodeUnfold(es: seq<seq<byte>>, rest: seq<byte>)
    requires es != []
    ensures EncodeElements(es) + rest ==
            if |es| == 1 then EncodeElement(es[0]) + [SEMI] + rest
            else EncodeElement(es[0]) + [COMMA] + (EncodeElements(es[1..]) + rest)
  {}

  lemma DecodeLast(e: seq<byte>, rest: seq<byte>)
    requires IsString(e)
    ensures DecodeElements(EncodeElement(e) + [SEMI] + rest) == Ok(Decoded([e], rest))
  {
    DecodeOneElement(e, SEMI, rest);
  }

  lemma DecodeFurther(e: seq<byte>, t: seq<byte>, es: seq<seq<byte>>, rest: seq<byte>)
    requires IsString(e) && DecodeElements(t) == Ok(Decoded(es, rest))
    ensures DecodeElements(EncodeElement(e) + [COMMA] + t) == Ok(Decoded([e] + es, rest))
  {
    DecodeOneElement(e, COMMA, t);
  }

  lemma {:induction false} DecodeInvertsElements(es: seq<seq<byte>>, rest: seq<byte>)
    requires es != [] && Strings(es)
    ensures DecodeElements(EncodeElements(es) + rest) == Ok(Decoded(es, rest))
  {
    EncodeUnfold(es, rest);
    assert es == [es[0]] + es[1..] && IsString(es[0]);
    if |es| == 1 {
      assert es == [es[0]];
      DecodeLast(es[0], rest);
    } else {
      assert Strings(es[1..]);
      DecodeInvertsElements(es[1..], rest);
      DecodeFurther(es[0], EncodeElements(es[1..]) + rest, es[1..], rest);
    }
  }

  /** Reading from an encoded instruction followed by anything returns it and leaves exactly what follows. */
  lemma DecodeInvertsEncode(i: Instruction, rest: seq<byte>)
    requires Strings(i.Elements())
    ensures var d := DecodeElements(Encode(i) + rest);
      d.Ok? && ToInstruction(d.value.elements) == i && d.value.rest == rest
  {
    DecodeInvertsElements(i.Elements(), rest);
  }

  predicate AllStrings(instrs: seq<Instruction>) {
    forall i <- instrs :: Strings(i.Elements())
  }

  /** Two instruction sequences with the same encoding are the same sequence. */
  lemma {:induction false} EncodingIsUnique(a: seq<Instruction>, b: seq<Instruction>)
    requires AllStrings(a) && AllStrings(b) && EncodeAll(a) == EncodeAll(b)
    ensures a == b
  {
    if a == [] || b == [] {
      assert |EncodeAll(a)| == 0 <==> a == [];
      assert |EncodeAll(b)| == 0 <==> b == [];
    } else {
      DecodeInvertsEncode(a[0], EncodeAll(a[1..]));
      DecodeInvertsEncode(b[0], EncodeAll(b[1..]));
      EncodingIsUnique(a[1..], b[1..]);
      assert a == [a[0]] + a[1..] && b == [b[0]] + b[1..];
    }
  }

  // ---- The reader ----

  /** Collects the digits before the next '.'; `false` stands for any error. */
  method ReadDigits(r: ByteStream) returns (ok: bool, digits: seq<byte>)
    modifies r
    ensures var s, k := old(r.pending), DigitRun(old(r.pending));
      && ok == (k < |s| && s[k] == DOT)
      && (ok ==> digits == s[..k] && r.pending == s[k + 1..])
  {
    hide DigitRun;
    digits := [];
    ghost var s := r.pending;
    while true
      invariant AllDigits(digits) && s == digits + r.pending
      decreases |r.pending|
    {
      ghost var left := r.pending;
      var got, b := r.ReadExact(1);
      if !got {
        DigitRunIs(s, |s|);
        return false, digits;
      }
      assert left == b + r.pending && s[|digits|] == b[0];
      if IsDigit(b[0]) {
        digits := digits + b;
      } else {
        assert s[..|digits|] == digits;
        DigitRunIs(s, |digits|);
        return b[0] == DOT, digits;
      }
    }
  }

  /** The body of the reader's loop: one element and the separator after it. */
  method ReadElement(r: ByteStream) returns (res: Result<Element>)
    modifies r
    ensures res == DecodeElement(old(r.pending))
    ensures res.Ok? ==> r.pending == res.value.rest
  {
    var ok, digits := ReadDigits(r);
    if !ok || digits == [] {
      return Err;
    }
    var len := Value(digits);
    if ISIZE_MAX < len {
      return Panic;
    }
    ghost var body := r.pending;
    var full, value := r.ReadExact(len);
    if !full || !Utf8.Valid(value) {
      return Err;
    }
    var got, sep := r.ReadExact(1);
    if !got || (sep[0] != COMMA && sep[0] != SEMI) {
      return Err;
    }
    assert sep[0] == body[len] && r.pending == body[len + 1..];
    return Ok(Element(value, sep[0] == SEMI, r.pending));
  }

  /** `d` is what decoding the rest of the stream adds to the elements read so far. */
  ghost predicate Extends(d: Result<Decoded>, elements: seq<seq<byte>>, s: seq<byte>) {
    match DecodeElements(s)
    case Ok(more) => d == Ok(Decoded(elements + more.elements, more.rest))
    case Err => d.Err?
    case Panic => d.Panic?
  }

  lemma ExtendsElement(d: Result<Decoded>, elements: seq<seq<byte>>, s: seq<byte>, e: Element)
    requires Extends(d, elements, s) && DecodeElement(s) == Ok(e)
    ensures if e.last then d == Ok(Decoded(elements + [e.value], e.rest))
            else Extends(d, elements + [e.value], e.rest)
  {
    var more := DecodeElements(e.rest);
    if !e.last && more.Ok? {
      Assoc(elements, [e.value], more.value.elements);
    }
  }

  /** `read_instruction` */
  method ReadInstruction(r: ByteStream) returns (res: Result<Instruction>)
    modifies r
    ensures var d := DecodeElements(old(r.pending));
      match res
      case Ok(i) => d.Ok? && i == ToInstruction(d.value.elements) && r.pending == d.value.rest
      case Err => d.Err?
      case Panic => d.Panic?
  {
    var elements: seq<seq<byte>> := [];
    ghost var d := DecodeElements(r.pending);
    assert d.Ok? ==> elements + d.value.elements == d.value.elements;
    while true
      invariant Extends(d, elements, r.pending)
      decreases |r.pending|
    {
      ghost var s := r.pending;
      var e := ReadElement(r);
      match e {
        case Err => return Err;
        case Panic => return Panic;
        case Ok(x) =>
          ExtendsElement(d, elements, s, x);
          elements := elements + [x.value];
          if x.last {
            return Ok(ToInstruction(elements));
          }
      }
    }
  }
}
