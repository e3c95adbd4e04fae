/** Reading whole HTTP/1.1 messages and forwarding them with normalised framing (section 6.3 of RFC 9112). */
module HttpFraming {
  import opened Wrappers
  import opened Bytes
  import opened Decimal
  import opened HttpMessages
  import opened Chunked

  const MAX_HEADER_BUF: nat := 64 * 1024

  // ---- The header block ----

  /** `Closed` is end of file before the first byte. */
  datatype Block = Closed | Failed | Block(head: seq<byte>, rest: seq<byte>)

  /** `read_header_block` once `n` bytes of `s` have been read. */
  function ReadBlock(s: seq<byte>, n: nat): Block
    requires n <= |s|
    decreases |s| - n
  {
    if n == |s| then if n == 0 then Closed else Failed
    else if MAX_HEADER_BUF < n + 1 then Failed
    else if EndsAt(s, n + 1) then Block(s[..n + 1], s[n + 1..])
    else ReadBlock(s, n + 1)
  }

  method ReadHeaderBlock(r: ByteStream) returns (res: Block)
    modifies r
    ensures res == ReadBlock(old(r.pending), 0) && (res.Block? ==> r.pending == res.rest)
  {
    ghost var s := r.pending;
    var buf: seq<byte> := [];
    while true
      invariant |buf| <= |s| && buf == s[..|buf|] && r.pending == s[|buf|..]
      invariant ReadBlock(s, 0) == ReadBlock(s, |buf|)
      decreases |s| - |buf|
    {
      var b := r.Read(1);
      if b == [] {
        return if buf == [] then Closed else Failed;
      }
      buf := buf + b;
      if MAX_HEADER_BUF < |buf| {
        return Failed;
      }
      if EndsAt(buf, |buf|) {
        return Block(buf, r.pending);
      }
    }
  }

  lemma {:induction false} BlockIs(s: seq<byte>, k: nat, n: nat)
    requires k < n && EndsAt(s, n) && forall i | k < i < n :: !EndsAt(s, i)
    ensures ReadBlock(s, k) == if n <= MAX_HEADER_BUF then Block(s[..n], s[n..]) else Failed
    decreases n - k
  {
    if k + 1 < n {
      BlockIs(s, k + 1, n);
    }
  }

  /** The block is everything up to the first empty line, if that comes within the limit. */
  lemma BlockMeans(s: seq<byte>, head: seq<byte>, rest: seq<byte>)
    ensures ReadBlock(s, 0) == Block(head, rest) <==>
            && s == head + rest && |head| <= 65536 && EmptyLineAt(s, |head|)
            && forall i: nat | i < |head| :: !EmptyLineAt(s, i)
    ensures ReadBlock(s, 0) == Closed <==> s == []
  {
    NotClosed(s, 0);
    EmptyLineIs(s);
    hide EndsAt, EmptyLineAt;
    if ReadBlock(s, 0) == Block(head, rest) {
      BlockComes(s, 0);
      NotAtStart(s);
    }
    if s == head + rest && |head| <= 65536 && EmptyLineAt(s, |head|) && forall i: nat | i < |head| :: !EmptyLineAt(s, i) {
      NotAtStart(s);
      BlockIs(s, 0, |head|);
    }
  }

  lemma {:induction false} NotClosed(s: seq<byte>, k: nat)
    requires k <= |s|
    ensures ReadBlock(s, k) == Closed <==> s == []
    decreases |s| - k
  {
    if k < |s| {
      NotClosed(s, k + 1);
    }
  }

  lemma NotAtStart(s: seq<byte>)
    ensures !EndsAt(s, 0)
  {}

  /** CR LF CR LF ends at `i`. */
  predicate EmptyLineAt(s: seq<byte>, i: nat) {
    4 <= i <= |s| && s[i - 4..i] == Ascii("\r\n\r\n")
  }

  lemma EmptyLineIs(s: seq<byte>)
    ensures forall i: nat :: EmptyLineAt(s, i) <==> EndsAt(s, i)
  {
    forall i: nat
      ensures EmptyLineAt(s, i) <==> EndsAt(s, i)
    {
      if 4 <= i <= |s| {
        var t := s[i - 4..i];
        assert t[0] == s[i - 4] && t[1] == s[i - 3] && t[2] == s[i - 2] && t[3] == s[i - 1];
      }
    }
  }

  lemma {:induction false} BlockComes(s: seq<byte>, k: nat)
    requires k <= |s| && ReadBlock(s, k).Block?
    ensures var b := ReadBlock(s, k);
      && k < |b.head| <= MAX_HEADER_BUF && EndsAt(s, |b.head|) && b.head + b.rest == s
      && forall i | k < i < |b.head| :: !EndsAt(s, i)
    decreases |s| - k
  {
    if !EndsAt(s, k + 1) {
      BlockComes(s, k + 1);
    }
  }

  // ---- The body ----

  /** `str::parse::<usize>` */
  function ParseDecimal(s: seq<byte>): Option<nat> {
    var digits := if 2 <= |s| && s[0] == PLUS then s[1..] else s;
    if digits != [] && AllDigits(digits) && Value(digits) < USIZE then Some(Value(digits)) else None
  }

  predicate Contains(s: seq<byte>, t: seq<byte>) {
    exists i | 0 <= i <= |s| - |t| :: s[i..][..|t|] == t
  }

  /** The first such field decides, whatever other codings it names. */
  predicate IsChunked(headers: seq<Field>) {
    var v := Header(headers, TRANSFER_ENCODING);
    v.Some? && Contains(Lower(v.value), CHUNKED)
  }

  /** `read_body`; `leftover` are bytes the header parser did not use. */
  function ReadFramed(headers: seq<Field>, leftover: seq<byte>, s: seq<byte>): Result<Framed> {
    if IsChunked(headers) then Decode(s, [])
    else
      match Header(headers, CONTENT_LENGTH)
      case None => Ok(Framed(leftover, s))
      case Some(cl) =>
        match ParseDecimal(Trim(cl))
        case None => Err
        case Some(len) =>
          if len == 0 then Ok(Framed([], s))
          else if MAX_BODY_BYTES < len then Err
          else if len <= |leftover| then Ok(Framed(leftover, s))
          else if |s| < len - |leftover| then Err
          else Ok(Framed(leftover + s[..len - |leftover|], s[len - |leftover|..]))
  }

  // ---- What the fields say ----

  /** The first Transfer-Encoding field, named in any case, has "chunked" somewhere in it, in any case. */
  lemma ChunkedMeans(headers: seq<Field>)
    ensures IsChunked(headers) <==>
            exists i: nat, k: nat :: FirstField(headers, Ascii("transfer-encoding"), i) && NamesChunked(headers[i].value, k)
  {
    NamesSpelled();
    HeaderMeans(headers, TRANSFER_ENCODING);
    hide Header, Ascii, Lower, SameLetters, NamesChunked;
    if IsChunked(headers) {
      var i := SomeFirst(headers, TRANSFER_ENCODING);
      ContainsMeans(headers[i].value);
      var k: nat :| NamesChunked(headers[i].value, k);
      assert FirstField(headers, Ascii("transfer-encoding"), i) && NamesChunked(headers[i].value, k);
    }
    if i: nat, k: nat :| FirstField(headers, Ascii("transfer-encoding"), i) && NamesChunked(headers[i].value, k) {
      ContainsMeans(headers[i].value);
    }
  }

  predicate NamesChunked(value: Text, k: nat) {
    k + 7 <= |value| && SameLetters(value[k..k + 7], Ascii("chunked"))
  }

  lemma {:induction false} SomeFirst(headers: seq<Field>, name: Text) returns (i: nat)
    requires Header(headers, name).Some?
    ensures FirstField(headers, name, i)
  {
    SameMeans(headers[0].name, name);
    hide Same, SameLetters;
    if Same(headers[0].name, name) {
      i := 0;
    } else {
      var j := SomeFirst(headers[1..], name);
      i := j + 1;
      assert forall k | 0 <= k < |headers| - 1 :: headers[1..][k] == headers[k + 1];
    }
  }

  lemma ContainsMeans(value: Text)
    ensures Contains(Lower(value), CHUNKED) <==> exists k: nat :: NamesChunked(value, k)
  {
    var low := Lower(value);
    assert |low| == |value| && |CHUNKED| == 7;
    forall k: nat | k + 7 <= |value|
      ensures low[k..][..7] == CHUNKED <==> NamesChunked(value, k)
    {
      NamesSpelled();
      LowerOfSlice(value, k);
      SameMeans(value[k..k + 7], CHUNKED);
      ChunkedIsLower();
      hide Lower, SameLetters, Ascii;
    }
    hide Lower, SameLetters, Ascii;
    if Contains(low, CHUNKED) {
      var k: nat :| 0 <= k <= |low| - 7 && low[k..][..7] == CHUNKED;
      assert NamesChunked(value, k);
    }
    if k: nat :| NamesChunked(value, k) {
      assert low[k..][..|CHUNKED|] == CHUNKED;
    }
  }

  lemma LowerOfSlice(value: Text, k: nat)
    requires k + 7 <= |value|
    ensures |Lower(value)| == |value| && Lower(value)[k..][..7] == Lower(value[k..k + 7])
  {}

  lemma ChunkedIsLower()
    ensures Lower(CHUNKED) == CHUNKED
  {}

  /** A numeral, after a plus or none, white space around it, and nothing else. */
  ghost predicate Announces(value: Text, n: nat) {
    exists before, sign, d, after ::
      && value == before + (sign + d + after) && Blank(before) && Blank(after) && (sign == [] || sign == Ascii("+"))
      && d != [] && AllDigits(d) && Value(d) == n
  }

  lemma AnnouncedReads(value: Text, n: nat)
    requires Announces(value, n)
    ensures ParseDecimal(Trim(value)) == if n < USIZE then Some(n) else None
  {
    hide Trim, Value, AllDigits, Blank, Ascii;
    var before, sign, d, after :| value == before + (sign + d + after) && Blank(before) && Blank(after)
                                  && (sign == [] || sign == Ascii("+")) && d != [] && AllDigits(d) && Value(d) == n;
    SignedReads(sign, d);
    TrimBlanks(before, sign + d, after);
  }

  lemma SignedReads(sign: seq<byte>, d: seq<byte>)
    requires (sign == [] || sign == Ascii("+")) && d != [] && AllDigits(d)
    ensures var num := sign + d; Visible(num[0]) && Visible(num[|num| - 1])
    ensures ParseDecimal(sign + d) == if Value(d) < USIZE then Some(Value(d)) else None
  {
    assert Ascii("+") == [PLUS] && IsDigit(d[0]) && IsDigit(d[|d| - 1]);
    hide Value, Ascii;
    var num := sign + d;
    if sign == [] {
      assert num == d;
    } else {
      assert num[0] == PLUS && num[1..] == d && num[|num| - 1] == d[|d| - 1];
    }
  }

  /** A length in the first Content-Length field, named in any case, takes that many bytes. */
  lemma LengthMeans(headers: seq<Field>, i: nat, n: nat, s: seq<byte>)
    requires !IsChunked(headers) && FirstField(headers, Ascii("content-length"), i) && Announces(headers[i].value, n)
    ensures ReadFramed(headers, [], s) ==
            if n <= 16777216 && n <= |s| then Ok(Framed(s[..n], s[n..])) else Err
  {
    NamesSpelled();
    HeaderMeans(headers, CONTENT_LENGTH);
    AnnouncedReads(headers[i].value, n);
    hide IsChunked, Header, FirstField, ParseDecimal, Trim, Announces, Ascii, Decode;
    assert Header(headers, CONTENT_LENGTH) == Some(headers[i].value);
    if 0 < n <= |s| { assert [] + s[..n] == s[..n]; }
  }

  lemma NoNumeral(value: seq<byte>, k: nat)
    requires k < |value| && Visible(value[k]) && !IsDigit(value[k]) && value[k] != PLUS
    ensures ParseDecimal(Trim(value)) == None
  {
    var a := TrimKeeps(value, k);
    hide Trim, Value;
    var t := Trim(value);
    assert t[k - a] == value[k];
    if 2 <= |t| && t[0] == PLUS {
      assert t[1..][k - a - 1] == value[k];
    }
  }

  /** A length with any other character in it, or none at all, is an error. */
  lemma LengthRefused(headers: seq<Field>, i: nat, k: nat, leftover: seq<byte>, s: seq<byte>)
    requires !IsChunked(headers) && FirstField(headers, Ascii("content-length"), i)
    requires var v := headers[i].value; v == [] || (k < |v| && Visible(v[k]) && !IsDigit(v[k]) && v[k] != PLUS)
    ensures ReadFramed(headers, leftover, s) == Err
  {
    NamesSpelled();
    HeaderMeans(headers, CONTENT_LENGTH);
    var v := headers[i].value;
    if v == [] {
      assert Trim(v) == [];
    } else {
      NoNumeral(v, k);
    }
    hide IsChunked, Header, FirstField, ParseDecimal, Trim, Ascii, Decode;
  }

  method ReadBody(r: ByteStream, msg: HttpMessage, leftover: seq<byte>) returns (res: Result<seq<byte>>)
    modifies r
    ensures match ReadFramed(msg.headers, leftover, old(r.pending))
            case Ok(f) => res == Ok(f.body) && r.pending == f.rest
            case Err => res == Err
            case Panic => res == Panic
  {
    hide Decode, Trim, ParseDecimal, Contains, Header;
    var te := msg.Find(TRANSFER_ENCODING);
    if te.Some? && Contains(Lower(te.value), CHUNKED) {
      ghost var peak;
      res, peak := ReadChunked(r);
      return;
    }
    var cl := msg.Find(CONTENT_LENGTH);
    if cl.None? {
      return Ok(leftover);
    }
    var len := ParseDecimal(Trim(cl.value));
    if len.None? {
      return Err;
    }
    if len.value == 0 {
      return Ok([]);
    }
    if MAX_BODY_BYTES < len.value {
      return Err;
    }
    var body := leftover;
    if |body| < len.value {
      var ok, more := r.ReadExact(len.value - |body|);
      if !ok {
        return Err;
      }
      body := body + more;
    }
    return Ok(body);
  }

  // ---- Normalising ----

  /** A decoded message announces its length instead of its coding. */
  function Normalised(headers: seq<Field>, body: seq<byte>): seq<Field> {
    if IsChunked(headers) then WithHeader(WithoutHeader(headers, TRANSFER_ENCODING), CONTENT_LENGTH, Digits(|body|))
    else headers
  }

  method Normalise(msg: HttpMessage)
    modifies msg`headers
    ensures msg.headers == Normalised(old(msg.headers), msg.body)
  {
    hide Header, WithHeader, WithoutHeader, Contains;
    var te := msg.Find(TRANSFER_ENCODING);
    if te.Some? && Contains(Lower(te.value), CHUNKED) {
      msg.RemoveHeader(TRANSFER_ENCODING);
      msg.SetHeader(CONTENT_LENGTH, Digits(|msg.body|));
    }
  }

  lemma NamesDiffer()
    ensures !Same(TRANSFER_ENCODING, CONTENT_LENGTH) && Same(CONTENT_LENGTH, CONTENT_LENGTH)
  {
    assert Lower(TRANSFER_ENCODING)[0] == LowerByte(116) == 116;
    assert Lower(CONTENT_LENGTH)[0] == LowerByte(99) == 99;
  }

  lemma RelabelledFraming(headers: seq<Field>, value: Text)
    ensures var sent := WithHeader(WithoutHeader(headers, TRANSFER_ENCODING), CONTENT_LENGTH, value);
      Header(sent, TRANSFER_ENCODING) == None && Header(sent, CONTENT_LENGTH) == Some(value)
  {
    NamesDiffer();
    SameSelf(TRANSFER_ENCODING);
    hide Header, WithHeader, WithoutHeader, Same;
    var kept := WithoutHeader(headers, TRANSFER_ENCODING);
    HeaderAfterSet(kept, CONTENT_LENGTH, value, TRANSFER_ENCODING);
    HeaderAfterSet(kept, CONTENT_LENGTH, value, CONTENT_LENGTH);
    HeaderAfterRemove(headers, TRANSFER_ENCODING, TRANSFER_ENCODING);
  }

  lemma NormalisedFraming(headers: seq<Field>, body: seq<byte>)
    requires IsChunked(headers)
    ensures !IsChunked(Normalised(headers, body))
    ensures Header(Normalised(headers, body), CONTENT_LENGTH) == Some(Digits(|body|))
  {
    RelabelledFraming(headers, Digits(|body|));
    hide Header, WithHeader, WithoutHeader, Contains, Digits;
  }

  lemma SameSelf(name: Text)
    ensures Same(name, name)
  {}

  /** A written length reads as itself. */
  lemma LengthReads(n: nat)
    ensures ParseDecimal(Trim(Digits(n))) == if n < USIZE then Some(n) else None
  {
    hide Digits, TrimStart, TrimEnd, Value;
    var d := Digits(n);
    assert IsDigit(d[0]) && IsDigit(d[|d| - 1]);
    TrimStartStops(d);
    TrimEndStops(d);
    ValueOfDigits(n);
  }

  /** The bytes the header parser left over do not run past the announced length. */
  predicate LeftoverFits(headers: seq<Field>, leftover: seq<byte>) {
    if IsChunked(headers) then true
    else
      match Header(headers, CONTENT_LENGTH)
      case None => leftover == []
      case Some(cl) =>
        var len := ParseDecimal(Trim(cl));
        len.Some? && (len.value == 0 || |leftover| <= len.value)
  }

  lemma ChunkedBodyRereads(headers: seq<Field>, leftover: seq<byte>, s: seq<byte>, rest: seq<byte>)
    requires IsChunked(headers) && ReadFramed(headers, leftover, s).Ok?
    ensures var body := ReadFramed(headers, leftover, s).value.body;
      ReadFramed(Normalised(headers, body), [], body + rest) == Ok(Framed(body, rest))
  {
    var body := ReadFramed(headers, leftover, s).value.body;
    DecodeIsBounded(s, []);
    NormalisedFraming(headers, body);
    LengthReads(|body|);
    hide Decode, IsChunked, Header, Normalised, ParseDecimal, Trim;
    assert (body + rest)[..|body|] == body && (body + rest)[|body|..] == rest && [] + body == body;
  }

  lemma PlainBodyRereads(headers: seq<Field>, leftover: seq<byte>, s: seq<byte>, rest: seq<byte>)
    requires !IsChunked(headers) && ReadFramed(headers, leftover, s).Ok?
    ensures var body := ReadFramed(headers, leftover, s).value.body;
      ReadFramed(headers, [], body + rest) == Ok(Framed(body, rest)) <==> LeftoverFits(headers, leftover)
  {
    var body := ReadFramed(headers, leftover, s).value.body;
    hide Decode, IsChunked, Header, ParseDecimal, Trim;
    assert (body + rest)[..|body|] == body && (body + rest)[|body|..] == rest && [] + body == body;
    assert [] + rest == rest;
  }

  /** Reading the forwarded message gives its body again and leaves what follows, exactly when the leftover bytes fit. */
  lemma BodyRereadsIff(headers: seq<Field>, leftover: seq<byte>, s: seq<byte>, rest: seq<byte>)
    requires ReadFramed(headers, leftover, s).Ok?
    ensures var body := ReadFramed(headers, leftover, s).value.body;
      ReadFramed(Normalised(headers, body), [], body + rest) == Ok(Framed(body, rest)) <==> LeftoverFits(headers, leftover)
  {
    hide ReadFramed, IsChunked;
    if IsChunked(headers) {
      ChunkedBodyRereads(headers, leftover, s, rest);
    } else {
      PlainBodyRereads(headers, leftover, s, rest);
    }
  }

  lemma {:induction false} WithHeaderClean(headers: seq<Field>, name: Text, value: Text)
    requires Clean([], headers) && OneLine(name) && OneLine(value)
    ensures Clean([], WithHeader(headers, name, value))
  {
    hide OneLine, Same;
    if headers != [] && !Same(headers[0].name, name) {
      WithHeaderClean(headers[1..], name, value);
    }
  }

  lemma {:induction false} WithoutHeaderClean(headers: seq<Field>, name: Text)
    requires Clean([], headers)
    ensures Clean([], WithoutHeader(headers, name))
  {
    hide OneLine, Same;
    if headers != [] {
      WithoutHeaderClean(headers[1..], name);
    }
  }

  lemma NormalisedClean(firstLine: Text, headers: seq<Field>, body: seq<byte>)
    requires Clean(firstLine, headers)
    ensures Clean(firstLine, Normalised(headers, body))
  {
    hide IsChunked, Digits;
    WithoutHeaderClean(headers, TRANSFER_ENCODING);
    var d := Digits(|body|);
    assert forall i | 0 <= i < |d| :: IsDigit(d[i]);
    assert OneLine(d) && OneLine(CONTENT_LENGTH);
    WithHeaderClean(WithoutHeader(headers, TRANSFER_ENCODING), CONTENT_LENGTH, d);
  }

  lemma HeadIsBlock(firstLine: Text, headers: seq<Field>, tail: seq<byte>)
    requires Clean(firstLine, headers)
    ensures var head := Head(firstLine, headers);
      ReadBlock(head + tail, 0) == if |head| <= MAX_HEADER_BUF then Block(head, tail) else Failed
  {
    var head := Head(firstLine, headers);
    EndsOnce(firstLine, headers);
    hide Head, Clean;
    var s := head + tail;
    assert forall i | 0 <= i <= |head| :: EndsAt(s, i) <==> EndsAt(head, i);
    BlockIs(s, 0, |head|);
    assert s[..|head|] == head && s[|head|..] == tail;
  }

  /**
   Re-framing is faithful. A message read from a peer and forwarded is read again as the same header
   block and the same body, with exactly the later bytes left, if and only if its head is within the
   limit and the header parser's leftover bytes fit the announced length.
   */
  lemma ReframingIff(firstLine: Text, headers: seq<Field>, leftover: seq<byte>, s: seq<byte>, rest: seq<byte>)
    requires Clean(firstLine, headers) && ReadFramed(headers, leftover, s).Ok?
    ensures var body := ReadFramed(headers, leftover, s).value.body;
      var sent := Normalised(headers, body);
      var block := ReadBlock(Head(firstLine, sent) + (body + rest), 0);
      && Clean(firstLine, sent)
      && (block == Block(Head(firstLine, sent), body + rest)
          && ReadFramed(sent, [], block.rest) == Ok(Framed(body, rest))
          <==> |Head(firstLine, sent)| <= MAX_HEADER_BUF && LeftoverFits(headers, leftover))
  {
    hide ReadFramed, LeftoverFits, Normalised, Clean, ReadBlock, Head;
    var body := ReadFramed(headers, leftover, s).value.body;
    NormalisedClean(firstLine, headers, body);
    HeadIsBlock(firstLine, Normalised(headers, body), body + rest);
    BodyRereadsIff(headers, leftover, s, rest);
  }

  // ---- Messages that do not come through ----

  /** Without a length the leftover bytes become the body, and the next reader takes them for what follows. */
  lemma LeftoverWithoutLength(leftover: seq<byte>, s: seq<byte>, rest: seq<byte>)
    requires leftover != []
    ensures ReadFramed([], leftover, s) == Ok(Framed(leftover, s)) && Normalised([], leftover) == []
    ensures ReadFramed([], [], leftover + rest) == Ok(Framed([], leftover + rest)) != Ok(Framed(leftover, rest))
  {}

  lemma OnlyLength(value: Text)
    ensures var headers := [Field(CONTENT_LENGTH, value)];
      !IsChunked(headers) && Header(headers, CONTENT_LENGTH) == Some(value)
  {
    NamesDiffer();
    hide Same, Contains;
    var headers := [Field(CONTENT_LENGTH, value)];
    assert headers[1..] == [] && Header([], TRANSFER_ENCODING) == None;
    assert Same(CONTENT_LENGTH, TRANSFER_ENCODING) == Same(TRANSFER_ENCODING, CONTENT_LENGTH) by { SameCommutes(); }
  }

  lemma SameCommutes()
    ensures Same(CONTENT_LENGTH, TRANSFER_ENCODING) == Same(TRANSFER_ENCODING, CONTENT_LENGTH)
  {
    hide Lower;
  }

  lemma CutAt(n: nat, leftover: seq<byte>, rest: seq<byte>)
    requires n <= |leftover|
    ensures [] + (leftover + rest)[..n] == leftover[..n] && (leftover + rest)[n..] == leftover[n..] + rest
  {}

  /** With a length the leftover bytes run past it, the next reader stops at it. */
  lemma LeftoverPastLength(n: nat, leftover: seq<byte>, s: seq<byte>, rest: seq<byte>)
    requires 0 < n < |leftover| && n <= MAX_BODY_BYTES
    ensures var headers := [Field(CONTENT_LENGTH, Digits(n))];
      && ReadFramed(headers, leftover, s) == Ok(Framed(leftover, s)) && Normalised(headers, leftover) == headers
      && ReadFramed(headers, [], leftover + rest) == Ok(Framed(leftover[..n], leftover[n..] + rest)) != Ok(Framed(leftover, rest))
  {
    OnlyLength(Digits(n));
    LengthReads(n);
    CutAt(n, leftover, rest);
    hide Decode, Header, ParseDecimal, Trim, Digits, IsChunked, WithHeader, WithoutHeader;
  }

  // ---- Length of the forwarded head ----

  lemma {:induction false} WithoutHeaderShrinks(headers: seq<Field>, name: Text)
    ensures |Lines(WithoutHeader(headers, name))| <= |Lines(headers)|
    ensures var v := Header(headers, name);
      v.Some? ==> |Lines(WithoutHeader(headers, name))| + |name| + |v.value| + 4 <= |Lines(headers)|
  {
    if headers != [] {
      var h := headers[0];
      assert Same(h.name, name) ==> |Lower(h.name)| == |Lower(name)|;
      hide Same;
      WithoutHeaderShrinks(headers[1..], name);
      if Same(h.name, name) {
        assert WithoutHeader(headers, name) == WithoutHeader(headers[1..], name);
      } else {
        assert WithoutHeader(headers, name)[1..] == WithoutHeader(headers[1..], name);
      }
    }
  }

  lemma {:induction false} WithHeaderGrows(headers: seq<Field>, name: Text, value: Text)
    ensures |Lines(WithHeader(headers, name, value))| <= |Lines(headers)| + |name| + |value| + 4
  {
    hide Same;
    if headers == [] {
      assert WithHeader(headers, name, value)[1..] == [];
    } else if Same(headers[0].name, name) {
      assert WithHeader(headers, name, value)[1..] == headers[1..];
    } else {
      WithHeaderGrows(headers[1..], name, value);
      assert WithHeader(headers, name, value)[1..] == WithHeader(headers[1..], name, value);
    }
  }

  /** Announcing the length takes no more room than the coding did: normalising never makes a head longer. */
  lemma NormalisedHeadNoLonger(firstLine: Text, headers: seq<Field>, leftover: seq<byte>, s: seq<byte>)
    requires ReadFramed(headers, leftover, s).Ok?
    ensures var body := ReadFramed(headers, leftover, s).value.body;
      |Head(firstLine, Normalised(headers, body))| <= |Head(firstLine, headers)|
  {
    var body := ReadFramed(headers, leftover, s).value.body;
    if IsChunked(headers) {
      DecodeIsBounded(s, []);
      assert Pow10(8) == 100_000_000 by {
        assert Pow10(2) == 100 && Pow10(4) == 10_000 && Pow10(6) == 1_000_000;
      }
      DigitsAtMost(|body|, 8);
      var v := Header(headers, TRANSFER_ENCODING).value;
      assert |CHUNKED| <= |Lower(v)| == |v|;
      hide Decode, Contains, Header, WithHeader, WithoutHeader, Lower, Digits;
      WithoutHeaderShrinks(headers, TRANSFER_ENCODING);
      WithHeaderGrows(WithoutHeader(headers, TRANSFER_ENCODING), CONTENT_LENGTH, Digits(|body|));
    }
  }

  /** So a message whose fields were serialised the way the proxy does, within the limit, comes through if its leftover bytes fit. */
  lemma SerialisedComesThrough(firstLine: Text, headers: seq<Field>, leftover: seq<byte>, s: seq<byte>, rest: seq<byte>)
    requires Clean(firstLine, headers) && ReadFramed(headers, leftover, s).Ok?
    requires |Head(firstLine, headers)| <= MAX_HEADER_BUF && LeftoverFits(headers, leftover)
    ensures var body := ReadFramed(headers, leftover, s).value.body;
      var sent := Normalised(headers, body);
      var block := ReadBlock(Head(firstLine, sent) + (body + rest), 0);
      block == Block(Head(firstLine, sent), body + rest) && ReadFramed(sent, [], block.rest) == Ok(Framed(body, rest))
  {
    hide ReadFramed, LeftoverFits, Normalised, Clean, ReadBlock, Head;
    NormalisedHeadNoLonger(firstLine, headers, leftover, s);
    ReframingIff(firstLine, headers, leftover, s, rest);
  }

  /** A block as long as the limit allows, its field written without the optional space: read, but too long once serialised. */
  lemma TightHeadIsRejected(firstLine: Text, name: Text, value: Text)
    requires OneLine(firstLine) && OneLine(name) && OneLine(value) && name != []
    requires |firstLine| + |name| + |value| + 7 == MAX_HEADER_BUF
    ensures var wire := firstLine + (CRLF + (name + [COLON] + value + (CRLF + CRLF)));
      && ReadBlock(wire, 0) == Block(wire, [])
      && ReadBlock(Head(firstLine, [Field(name, value)]), 0) == Failed
  {
    var q := name + [COLON] + value;
    var wire := firstLine + (CRLF + (q + (CRLF + CRLF)));
    assert |wire| == MAX_HEADER_BUF;
    EndsOnce(q, []);
    EndsLater(firstLine, q, CRLF);
    hide EndsAt;
    assert Head(q, []) == q + (CRLF + CRLF);
    assert forall i: nat :: EndsAt(wire, i) <==> |firstLine| + 2 <= i && EndsAt(Head(q, []), i - |firstLine| - 2);
    BlockIs(wire, 0, |wire|);
    assert wire[..|wire|] == wire && wire[|wire|..] == [];
    var head := Head(firstLine, [Field(name, value)]);
    assert [Field(name, value)][1..] == [];
    assert |head| == |wire| + 1;
    HeadIsBlock(firstLine, [Field(name, value)], []);
    assert head + [] == head;
  }
}
