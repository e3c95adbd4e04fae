/** HTTP/1.1 messages as the transform proxy holds them: header operations and serialisation. */
module HttpMessages {
  import opened Wrappers
  import opened Bytes

  type Text = seq<byte>

  datatype Field = Field(name: Text, value: Text)

  // "transfer-encoding", "content-length", "chunked"
  const TRANSFER_ENCODING: Text := [116, 114, 97, 110, 115, 102, 101, 114, 45, 101, 110, 99, 111, 100, 105, 110, 103]
  const CONTENT_LENGTH: Text := [99, 111, 110, 116, 101, 110, 116, 45, 108, 101, 110, 103, 116, 104]
  const CHUNKED: Text := [99, 104, 117, 110, 107, 101, 100]
  const CRLF: Text := [CR, LF]
  const COLON: byte := 58

  /** `to_ascii_lowercase` */
  function LowerByte(b: byte): byte {
    if 65 <= b <= 90 then b + 32 else b
  }

  function Lower(s: Text): Text {
    seq(|s|, i requires 0 <= i < |s| => LowerByte(s[i]))
  }

  predicate Same(a: Text, b: Text) {
    Lower(a) == Lower(b)
  }

  // ---- Which names are the same ----

  /** Equal but for the case of ASCII letters. */
  predicate SameLetters(a: Text, b: Text) {
    |a| == |b| && forall i | 0 <= i < |a| :: SameLetter(a[i], b[i])
  }

  predicate SameLetter(a: byte, b: byte) {
    a == b || (65 <= a <= 90 && b as int == a as int + 32) || (65 <= b <= 90 && a as int == b as int + 32)
  }

  lemma SameMeans(a: Text, b: Text)
    ensures Same(a, b) <==> SameLetters(a, b)
  {
    assert forall i | 0 <= i < |a| && |a| == |b| :: Lower(a)[i] == LowerByte(a[i]) && Lower(b)[i] == LowerByte(b[i]);
    if Same(a, b) {
      assert |Lower(a)| == |Lower(b)|;
      assert forall i | 0 <= i < |a| :: Lower(a)[i] == Lower(b)[i];
    }
  }

  lemma NamesSpelled()
    ensures TRANSFER_ENCODING == Ascii("transfer-encoding") && CONTENT_LENGTH == Ascii("content-length")
    ensures CHUNKED == Ascii("chunked")
  {}

  /** The first field whose name is this one, in any case. */
  predicate FirstField(headers: seq<Field>, name: Text, i: nat) {
    && i < |headers| && SameLetters(headers[i].name, name)
    && forall j | 0 <= j < i :: !SameLetters(headers[j].name, name)
  }

  // ---- Header operations ----

  /** `header`: the first match. */
  function Header(headers: seq<Field>, name: Text): Option<Text> {
    if headers == [] then None
    else if Same(headers[0].name, name) then Some(headers[0].value)
    else Header(headers[1..], name)
  }

  /** `set_header`: the first match replaced, or a new field at the end. */
  function WithHeader(headers: seq<Field>, name: Text, value: Text): seq<Field> {
    if headers == [] then [Field(name, value)]
    else if Same(headers[0].name, name) then [headers[0].(value := value)] + headers[1..]
    else [headers[0]] + WithHeader(headers[1..], name, value)
  }

  /** `remove_header`: every match goes. */
  function WithoutHeader(headers: seq<Field>, name: Text): seq<Field> {
    if headers == [] then []
    else (if Same(headers[0].name, name) then [] else [headers[0]]) + WithoutHeader(headers[1..], name)
  }

  /** The value of the first field of that name, in any case, if there is one. */
  lemma {:induction false} HeaderMeans(headers: seq<Field>, name: Text)
    ensures Header(headers, name).None? <==> forall i | 0 <= i < |headers| :: !SameLetters(headers[i].name, name)
    ensures forall i: nat | FirstField(headers, name, i) :: Header(headers, name) == Some(headers[i].value)
  {
    hide Same, SameLetters;
    if headers != [] {
      var rest := headers[1..];
      SameMeans(headers[0].name, name);
      HeaderMeans(rest, name);
      assert forall i | 1 <= i < |headers| :: headers[i] == rest[i - 1];
      forall i: nat | FirstField(headers, name, i)
        ensures Header(headers, name) == Some(headers[i].value)
      {
        if 0 < i { assert FirstField(rest, name, i - 1); }
      }
    }
  }

  /** Only the first field of that name changes, and only in its value. */
  lemma {:induction false} SetReplaces(headers: seq<Field>, name: Text, value: Text, i: nat)
    requires FirstField(headers, name, i)
    ensures WithHeader(headers, name, value) == headers[i := Field(headers[i].name, value)]
  {
    hide Same, SameLetters;
    SameMeans(headers[0].name, name);
    if 0 < i {
      var rest := headers[1..];
      assert forall j | 0 <= j < |rest| :: rest[j] == headers[j + 1];
      SetReplaces(rest, name, value, i - 1);
    }
  }

  /** Without one a field is added at the end. */
  lemma {:induction false} SetAppends(headers: seq<Field>, name: Text, value: Text)
    requires forall i | 0 <= i < |headers| :: !SameLetters(headers[i].name, name)
    ensures WithHeader(headers, name, value) == headers + [Field(name, value)]
  {
    hide Same, SameLetters;
    if headers != [] {
      var rest := headers[1..];
      SameMeans(headers[0].name, name);
      assert forall j | 0 <= j < |rest| :: rest[j] == headers[j + 1];
      SetAppends(rest, name, value);
    }
  }

  /** Field by field and in order: those of that name go, the others stay. */
  lemma RemoveMeans(name: Text, f: Field)
    ensures WithoutHeader([], name) == []
    ensures WithoutHeader([f], name) == if SameLetters(f.name, name) then [] else [f]
  {
    SameMeans(f.name, name);
    assert [f][1..] == [];
    hide Same, SameLetters;
  }

  lemma {:induction false} RemoveAppend(a: seq<Field>, b: seq<Field>, name: Text)
    ensures WithoutHeader(a + b, name) == WithoutHeader(a, name) + WithoutHeader(b, name)
  {
    hide Same;
    if a == [] {
      assert a + b == b;
    } else {
      RemoveAppend(a[1..], b, name);
      var kept := if Same(a[0].name, name) then [] else [a[0]];
      assert (a + b)[0] == a[0] && (a + b)[1..] == a[1..] + b;
      assert WithoutHeader(a + b, name) == kept + WithoutHeader(a[1..] + b, name);
      assert WithoutHeader(a, name) == kept + WithoutHeader(a[1..], name);
      hide WithoutHeader;
      Assoc(kept, WithoutHeader(a[1..], name), WithoutHeader(b, name));
    }
  }

  lemma {:induction false} HeaderAfterSet(headers: seq<Field>, name: Text, value: Text, other: Text)
    ensures Header(WithHeader(headers, name, value), other) == if Same(other, name) then Some(value) else Header(headers, other)
  {
    if headers != [] {
      HeaderAfterSet(headers[1..], name, value, other);
    }
  }

  lemma {:induction false} HeaderAfterRemove(headers: seq<Field>, name: Text, other: Text)
    ensures Header(WithoutHeader(headers, name), other) == if Same(other, name) then None else Header(headers, other)
  {
    if headers != [] {
      HeaderAfterRemove(headers[1..], name, other);
      if !Same(headers[0].name, name) {
        assert WithoutHeader(headers, name)[1..] == WithoutHeader(headers[1..], name);
      } else {
        assert WithoutHeader(headers, name) == WithoutHeader(headers[1..], name);
      }
    }
  }

  // ---- Serialisation ----

  function Line(f: Field): Text {
    f.name + [COLON, 32] + f.value
  }

  /** The header lines and the empty line. */
  function Lines(headers: seq<Field>): Text {
    if headers == [] then CRLF else Line(headers[0]) + (CRLF + Lines(headers[1..]))
  }

  function Head(firstLine: Text, headers: seq<Field>): Text {
    firstLine + (CRLF + Lines(headers))
  }

  /** A field is its name, a colon, a blank and its value; every line ends in CR LF, and an empty one closes the head. */
  lemma HeadSpelled(firstLine: Text, f: Field, rest: seq<Field>)
    ensures Head(firstLine, []) == firstLine + Ascii("\r\n\r\n")
    ensures Head(firstLine, [f] + rest) == firstLine + (Ascii("\r\n") + Head(f.name + Ascii(": ") + f.value, rest))
  {
    assert CRLF + CRLF == Ascii("\r\n\r\n") && CRLF == Ascii("\r\n") && [COLON, 32] == Ascii(": ");
    assert ([f] + rest)[0] == f && ([f] + rest)[1..] == rest;
  }

  predicate OneLine(s: Text) {
    CR !in s && LF !in s
  }

  predicate Clean(firstLine: Text, headers: seq<Field>) {
    OneLine(firstLine) && forall i | 0 <= i < |headers| :: OneLine(headers[i].name) && OneLine(headers[i].value)
  }

  class HttpMessage {
    var firstLine: Text
    var headers: seq<Field>
    var body: seq<byte>

    constructor (firstLine: Text, headers: seq<Field>, body: seq<byte>)
      ensures this.firstLine == firstLine && this.headers == headers && this.body == body
    {
      this.firstLine, this.headers, this.body := firstLine, headers, body;
    }

    method Find(name: Text) returns (value: Option<Text>)
      ensures value == Header(headers, name)
      ensures value.None? <==> forall i | 0 <= i < |headers| :: !SameLetters(headers[i].name, name)
      ensures forall i: nat | FirstField(headers, name, i) :: value == Some(headers[i].value)
    {
      HeaderMeans(headers, name);
      hide SameLetters, FirstField;
      for i := 0 to |headers|
        invariant Header(headers, name) == Header(headers[i..], name)
      {
        if Lower(headers[i].name) == Lower(name) {
          return Some(headers[i].value);
        }
        assert headers[i..][1..] == headers[i + 1..];
      }
      return None;
    }

    method SetHeader(name: Text, value: Text)
      modifies this`headers
      ensures headers == WithHeader(old(headers), name, value)
    {
      var i := 0;
      while i < |headers| && Lower(headers[i].name) != Lower(name)
        invariant i <= |headers| && headers == old(headers)
        invariant WithHeader(headers, name, value) == headers[..i] + WithHeader(headers[i..], name, value)
      {
        Snoc(headers, i, WithHeader(headers[i + 1..], name, value));
        assert headers[i..][1..] == headers[i + 1..];
        i := i + 1;
      }
      if i < |headers| {
        assert headers[i..][1..] == headers[i + 1..];
        headers := headers[i := headers[i].(value := value)];
      } else {
        assert headers[..i] == headers;
        headers := headers + [Field(name, value)];
      }
    }

    method RemoveHeader(name: Text)
      modifies this`headers
      ensures headers == WithoutHeader(old(headers), name)
    {
      hide Lower;
      var kept: seq<Field> := [];
      for i := 0 to |headers|
        invariant headers == old(headers)
        invariant WithoutHeader(headers, name) == kept + WithoutHeader(headers[i..], name)
      {
        RemoveStep(headers, i, name, kept);
        if Lower(headers[i].name) != Lower(name) {
          kept := kept + [headers[i]];
        }
      }
      headers := kept;
    }

    method ToBytes() returns (out: seq<byte>)
      ensures out == Head(firstLine, headers) + body
    {
      out := firstLine + CRLF;
      Assoc(firstLine, CRLF, Lines(headers));
      for i := 0 to |headers|
        invariant Head(firstLine, headers) == out + Lines(headers[i..])
      {
        var f := headers[i];
        assert headers[i..][1..] == headers[i + 1..];
        Assoc(out, Line(f), CRLF + Lines(headers[i + 1..]));
        Assoc(out + Line(f), CRLF, Lines(headers[i + 1..]));
        assert out + f.name + [COLON, 32] + f.value == out + Line(f);
        out := out + f.name + [COLON, 32] + f.value + CRLF;
      }
      out := out + CRLF + body;
    }
  }

  lemma Snoc(headers: seq<Field>, i: nat, tail: seq<Field>)
    requires i < |headers|
    ensures headers[..i] + ([headers[i]] + tail) == headers[..i + 1] + tail
  {}

  lemma RemoveStep(headers: seq<Field>, i: nat, name: Text, kept: seq<Field>)
    requires i < |headers|
    ensures kept + WithoutHeader(headers[i..], name) ==
            (if Same(headers[i].name, name) then kept else kept + [headers[i]]) + WithoutHeader(headers[i + 1..], name)
  {
    hide Same;
    assert headers[i..][1..] == headers[i + 1..];
    Assoc(kept, [headers[i]], WithoutHeader(headers[i + 1..], name));
    assert [] + WithoutHeader(headers[i + 1..], name) == WithoutHeader(headers[i + 1..], name);
  }

  // ---- The head determines the message ----

  lemma FirstLineEnds(a: Text, b: Text, x: Text, y: Text)
    requires OneLine(a) && OneLine(b) && a + (CRLF + x) == b + (CRLF + y)
    ensures a == b && x == y
  {
    var s := a + (CRLF + x);
    assert CRLF + x == [CR] + ([LF] + x) && CRLF + y == [CR] + ([LF] + y);
    IndexOfIs(a, CR, [LF] + x);
    IndexOfIs(b, CR, [LF] + y);
    hide IndexOf;
    assert a == s[..|a|] && b == s[..|b|];
    assert x == s[|a| + 2..] && y == s[|b| + 2..];
  }

  lemma FieldOfLine(f: Field, g: Field)
    requires Line(f) == Line(g) && COLON !in f.name && COLON !in g.name
    ensures f == g
  {
    var s := Line(f);
    assert s == f.name + ([COLON] + ([32] + f.value)) && s == g.name + ([COLON] + ([32] + g.value));
    IndexOfIs(f.name, COLON, [32] + f.value);
    IndexOfIs(g.name, COLON, [32] + g.value);
    hide IndexOf;
    assert f.name == s[..|f.name|] && g.name == s[..|g.name|];
    assert f.value == s[|f.name| + 2..] && g.value == s[|g.name| + 2..];
  }

  lemma LineIsOneLine(f: Field)
    requires OneLine(f.name) && OneLine(f.value)
    ensures OneLine(Line(f)) && 2 <= |Line(f)|
  {}

  lemma LinesStart(hs: seq<Field>)
    requires Clean([], hs)
    ensures Lines(hs)[0] == CR <==> hs == []
  {
    if hs != [] {
      LineIsOneLine(hs[0]);
      assert Lines(hs)[0] == Line(hs[0])[0] && Line(hs[0])[0] in Line(hs[0]);
    }
  }

  predicate PlainNames(hs: seq<Field>) {
    forall i | 0 <= i < |hs| :: COLON !in hs[i].name
  }

  lemma {:induction false} LinesInjective(hs: seq<Field>, gs: seq<Field>)
    requires Clean([], hs) && Clean([], gs) && PlainNames(hs) && PlainNames(gs) && Lines(hs) == Lines(gs)
    ensures hs == gs
  {
    LinesStart(hs);
    LinesStart(gs);
    if hs != [] {
      LineIsOneLine(hs[0]);
      LineIsOneLine(gs[0]);
      FirstLineEnds(Line(hs[0]), Line(gs[0]), Lines(hs[1..]), Lines(gs[1..]));
      FieldOfLine(hs[0], gs[0]);
      LinesInjective(hs[1..], gs[1..]);
    }
  }

  /** Whatever parser reads it, the head determines first line and fields. */
  lemma HeadInjective(a: Text, hs: seq<Field>, b: Text, gs: seq<Field>)
    requires Clean(a, hs) && Clean(b, gs) && PlainNames(hs) && PlainNames(gs) && Head(a, hs) == Head(b, gs)
    ensures a == b && hs == gs
  {
    FirstLineEnds(a, b, Lines(hs), Lines(gs));
    LinesInjective(hs, gs);
  }

  // ---- Where the head ends ----

  /** The `i` bytes read so far end with an empty line. */
  predicate EndsAt(s: seq<byte>, i: nat) {
    4 <= i <= |s| && s[i - 4] == CR && s[i - 3] == LF && s[i - 2] == CR && s[i - 1] == LF
  }

  /** A head holds no empty line but its last. */
  lemma {:induction false} EndsOnce(p: Text, headers: seq<Field>)
    requires Clean(p, headers)
    ensures var s := Head(p, headers); EndsAt(s, |s|) && forall i | 0 <= i < |s| :: !EndsAt(s, i)
    decreases |headers|
  {
    var s := Head(p, headers);
    if headers == [] {
      forall i | 0 <= i < |s|
        ensures !EndsAt(s, i)
      {
        assert 3 <= i <= |p| + 2 ==> s[i - 3] == p[i - 3];
      }
    } else {
      var q := Line(headers[0]);
      LineIsOneLine(headers[0]);
      EndsOnce(q, headers[1..]);
      EndsLater(p, q, Lines(headers[1..]));
    }
  }

  lemma EndsLater(p: Text, q: Text, tail: Text)
    requires OneLine(p) && OneLine(q) && 2 <= |q|
    ensures var s, u := p + (CRLF + (q + (CRLF + tail))), q + (CRLF + tail);
      forall i: nat :: EndsAt(s, i) <==> |p| + 2 <= i && EndsAt(u, i - |p| - 2)
  {
    var u := q + (CRLF + tail);
    var s := p + (CRLF + u);
    forall i: nat
      ensures EndsAt(s, i) <==> |p| + 2 <= i && EndsAt(u, i - |p| - 2)
    {
      if 4 <= i <= |s| && i < |p| + 6 {
        if i <= |p| + 2 {
          assert s[i - 3] == p[i - 3] || i == 3;
        }
      }
    }
  }
}
