/**
 The frame parser of the direct-SSH relay: `[type][length, two bytes big endian][payload]`,
 reassembled from reads of any size.
 */
module SshFrames {
  import opened Bytes

  datatype Frame = Frame(kind: byte, payload: seq<byte>)

  /** What a complete frame makes the gateway do. */
  datatype Action =
    | PtyData(data: seq<byte>)
    | WindowChange(cols: nat, rows: nat)
    | Discarded(kind: byte, length: nat)

  function U16(hi: byte, lo: byte): nat {
    256 * hi + lo
  }

  function ActionOf(f: Frame): Action {
    if f.kind == 0 then PtyData(f.payload)
    else if f.kind == 1 && |f.payload| == 4 then
      WindowChange(U16(f.payload[2], f.payload[3]), U16(f.payload[0], f.payload[1]))
    else Discarded(f.kind, |f.payload|)
  }

  function TwoBytes(n: nat): (s: seq<byte>)
    requires n < 0x1_0000
    ensures |s| == 2
  {
    [n / 256, n % 256]
  }

  /** Keys are type 0; a resize is type 1 with rows before columns, high bytes first; nothing else does anything. */
  lemma ActionsMean(keys: seq<byte>, rows: nat, cols: nat, other: Frame)
    requires rows < 0x1_0000 && cols < 0x1_0000
    ensures ActionOf(Frame(0, keys)) == PtyData(keys)
    ensures var a := ActionOf(Frame(1, TwoBytes(rows) + TwoBytes(cols))); a.WindowChange? && a.rows == rows && a.cols == cols
    ensures (ActionOf(other).PtyData? <==> other.kind == 0) && (ActionOf(other).WindowChange? <==> other.kind == 1 && |other.payload| == 4)
  {}

  // ---- The one-shot parse ----

  function PayloadLength(s: seq<byte>): nat
    requires 3 <= |s|
  {
    U16(s[1], s[2])
  }

  /** A frame is ready once its last byte is there; an empty frame waits for one byte more. */
  predicate Ready(s: seq<byte>) {
    3 <= |s| && 3 + PayloadLength(s) <= |s| && 4 <= |s|
  }

  datatype Parsed = Parsed(frames: seq<Frame>, rest: seq<byte>)

  function Parse(s: seq<byte>): Parsed
    decreases |s|
  {
    if !Ready(s) then Parsed([], s)
    else
      var n := 3 + PayloadLength(s);
      var tail := Parse(s[n..]);
      Parsed([Frame(s[0], s[3..n])] + tail.frames, tail.rest)
  }

  lemma ParseStops(s: seq<byte>)
    requires !Ready(s)
    ensures Parse(s) == Parsed([], s)
  {}

  /** One step of the parse, with the frame's parts named. */
  lemma UnfoldParse(s: seq<byte>, hdr: seq<byte>, payload: seq<byte>, tail: seq<byte>)
    requires |hdr| == 3 && |payload| == U16(hdr[1], hdr[2]) && s == hdr + payload + tail
    requires payload == [] ==> tail != []
    ensures Parse(s) == Parsed([Frame(hdr[0], payload)] + Parse(tail).frames, Parse(tail).rest)
  {
    assert s[3..3 + |payload|] == payload && s[3 + |payload|..] == tail;
  }

  function Encode(f: Frame): seq<byte>
    requires |f.payload| < 0x1_0000
  {
    [f.kind, |f.payload| / 256, |f.payload| % 256] + f.payload
  }

  predicate Encodable(fs: seq<Frame>) {
    forall f <- fs :: |f.payload| < 0x1_0000
  }

  function EncodeAll(fs: seq<Frame>): seq<byte>
    requires Encodable(fs)
  {
    if fs == [] then [] else Encode(fs[0]) + EncodeAll(fs[1..])
  }

  /** Nothing is lost or invented: the frames' encodings and the rest are the input. */
  lemma {:induction false} ParseConserves(s: seq<byte>)
    ensures var p := Parse(s);
      && Encodable(p.frames) && EncodeAll(p.frames) + p.rest == s
      && !Ready(p.rest)
    decreases |s|
  {
    hide Parse;
    if Ready(s) {
      var n := 3 + PayloadLength(s);
      var f, tail := Frame(s[0], s[3..n]), Parse(s[n..]);
      UnfoldParse(s, s[..3], s[3..n], s[n..]);
      ParseConserves(s[n..]);
      assert Encode(f) == s[..n];
      assert ([f] + tail.frames)[1..] == tail.frames;
      Assoc(s[..n], EncodeAll(tail.frames), tail.rest);
    } else {
      ParseStops(s);
      assert EncodeAll([]) + s == s;
    }
  }

  lemma ParseOneEncoded(f: Frame, tail: seq<byte>)
    requires |f.payload| < 0x1_0000
    requires f.payload == [] ==> tail != []
    ensures Parse(Encode(f) + tail) == Parsed([f] + Parse(tail).frames, Parse(tail).rest)
  {
    var head := [f.kind, |f.payload| / 256, |f.payload| % 256];
    UnfoldParse(Encode(f) + tail, head, f.payload, tail);
  }

  /** Encoded frames followed by anything that forces the last one out are parsed back unchanged. */
  lemma {:induction false} ParseEncoded(fs: seq<Frame>, rest: seq<byte>)
    requires Encodable(fs)
    requires fs != [] && fs[|fs| - 1].payload == [] ==> rest != []
    ensures Parse(EncodeAll(fs) + rest) == Parsed(fs + Parse(rest).frames, Parse(rest).rest)
  {
    hide Parse;
    if fs == [] {
      assert EncodeAll(fs) + rest == rest;
      assert fs + Parse(rest).frames == Parse(rest).frames;
    } else {
      var f, more := fs[0], EncodeAll(fs[1..]);
      assert |fs| > 1 ==> fs[1..][|fs| - 2] == fs[|fs| - 1] && |Encode(fs[1])| <= |more|;
      ParseEncoded(fs[1..], rest);
      ParseOneEncoded(f, more + rest);
      Assoc(Encode(f), more, rest);
      Uncons(fs, Parse(rest).frames);
    }
  }

  /** An empty frame at the very end of the input stays buffered. */
  lemma TrailingEmptyFrameWaits(fs: seq<Frame>, kind: byte)
    requires Encodable(fs)
    ensures Parse(EncodeAll(fs) + Encode(Frame(kind, []))) == Parsed(fs, [kind, 0, 0])
  {
    ParseEncoded(fs, Encode(Frame(kind, [])));
    assert Encode(Frame(kind, [])) == [kind, 0, 0];
    assert fs + [] == fs;
  }

  // ---- Chunking ----

  /** Parsing can stop at any byte and go on from the rest. */
  lemma {:induction false} ParseAppend(a: seq<byte>, b: seq<byte>)
    ensures Parse(a + b) ==
            Parsed(Parse(a).frames + Parse(Parse(a).rest + b).frames, Parse(Parse(a).rest + b).rest)
    decreases |a|
  {
    hide Parse;
    if !Ready(a) {
      ParseStops(a);
      assert [] + Parse(a + b).frames == Parse(a + b).frames;
    } else {
      var n := 3 + PayloadLength(a);
      var tail := a[n..];
      UnfoldParse(a, a[..3], a[3..n], tail);
      assert a + b == a[..3] + a[3..n] + (tail + b);
      UnfoldParse(a + b, a[..3], a[3..n], tail + b);
      ParseAppend(tail, b);
      var f, p, q := Frame(a[0], a[3..n]), Parse(tail), Parse(Parse(tail).rest + b);
      assert [f] + (p.frames + q.frames) == ([f] + p.frames) + q.frames;
    }
  }

  /** What a parser that keeps the rest between reads has produced after `chunks`. */
  function ParseChunks(chunks: seq<seq<byte>>): Parsed {
    if chunks == [] then Parsed([], [])
    else
      var before := ParseChunks(chunks[..|chunks| - 1]);
      var last := Parse(before.rest + chunks[|chunks| - 1]);
      Parsed(before.frames + last.frames, last.rest)
  }

  /** The frames and the leftover depend on the bytes alone, never on how reads cut them up. */
  lemma {:induction false} ChunkingIrrelevant(chunks: seq<seq<byte>>)
    ensures ParseChunks(chunks) == Parse(Concat(chunks))
  {
    if chunks != [] {
      var init, last := chunks[..|chunks| - 1], chunks[|chunks| - 1];
      ChunkingIrrelevant(init);
      ConcatSnoc(init, last);
      assert chunks == init + [last];
      ParseAppend(Concat(init), last);
    }
  }

  // ---- The relay's parser ----

  function Actions(fs: seq<Frame>): seq<Action> {
    if fs == [] then [] else Actions(fs[..|fs| - 1]) + [ActionOf(fs[|fs| - 1])]
  }

  class FrameParser {
    const hdr: array<byte>
    var hdrPos: nat
    var payload: array<byte>
    var payPos: nat
    var ftype: byte
    var performed: seq<Action>
    ghost var dispatched: seq<Frame>
    ghost var pending: seq<byte>  // the bytes received since the last dispatched frame

    ghost predicate Shape()
      reads this, hdr, payload
    {
      && hdr.Length == 3 && hdr != payload && hdrPos <= 3
      && performed == Actions(dispatched)
      && if hdrPos < 3 then pending == hdr[..hdrPos]
         else && payload.Length == U16(hdr[1], hdr[2]) && ftype == hdr[0] && payPos <= payload.Length
              && pending == hdr[..] + payload[..payPos]
    }

    /** Between two turns of the loop a non-empty payload is never complete. */
    ghost predicate Valid()
      reads this, hdr, payload
    {
      Shape() && (hdrPos == 3 && 0 < payload.Length ==> payPos < payload.Length)
    }

    constructor ()
      ensures Valid() && pending == [] && dispatched == []
      ensures fresh(hdr) && fresh(payload)
    {
      hdr := new byte[3](_ => 0);
      payload := new byte[0];
      hdrPos, payPos, ftype, performed, dispatched, pending := 0, 0, 0, [], [], [];
    }

    method Perform()
      modifies `performed
      ensures performed == old(performed) + [ActionOf(Frame(ftype, payload[..]))]
    {
      var action;
      if ftype == 0 {
        action := PtyData(payload[..]);
      } else if ftype == 1 && payload.Length == 4 {
        var rows := U16(payload[0], payload[1]);
        var cols := U16(payload[2], payload[3]);
        action := WindowChange(cols, rows);
      } else {
        action := Discarded(ftype, payload.Length);
      }
      performed := performed + [action];
    }

    /** Performs the complete frame and gets ready for the next header. */
    method Dispatch()
      requires Shape() && hdrPos == 3 && payPos == payload.Length
      modifies `hdrPos, `performed, `dispatched, `pending
      ensures Valid() && hdrPos == 0 && pending == []
      ensures dispatched == old(dispatched) + [Frame(hdr[0], payload[..])]
    {
      Perform();
      dispatched := dispatched + [Frame(ftype, payload[..])];
      assert dispatched[..|dispatched| - 1] == old(dispatched);
      hdrPos, pending := 0, [];
    }

    /** Copies header bytes; when the third arrives the payload buffer gets its size. */
    method FillHeader(raw: seq<byte>, cur: nat) returns (next: nat)
      requires Valid() && cur < |raw| && hdrPos < 3
      modifies this, hdr
      ensures Valid() && cur < next <= |raw| && dispatched == old(dispatched)
      ensures payload == old(payload) || fresh(payload)
      ensures pending == old(pending) + raw[cur..next]
    {
      hide Actions, U16;
      var take := Min(3 - hdrPos, |raw| - cur);
      ghost var was := hdr[..hdrPos];
      forall i | 0 <= i < take {
        hdr[hdrPos + i] := raw[cur + i];
      }
      assert hdr[..hdrPos + take] == was + raw[cur..cur + take];
      pending := pending + raw[cur..cur + take];
      hdrPos, next := hdrPos + take, cur + take;
      if hdrPos == 3 {
        StartPayload();
      }
    }

    method StartPayload()
      requires hdr.Length == 3 && hdrPos == 3 && pending == hdr[..] && performed == Actions(dispatched)
      modifies `ftype, `payload, `payPos
      ensures Valid() && fresh(payload)
    {
      hide Actions, U16;
      ftype := hdr[0];
      payload := new byte[U16(hdr[1], hdr[2])](_ => 0);
      payPos := 0;
      assert hdr[..] + payload[..0] == hdr[..];
    }

    method FillPayload(raw: seq<byte>, cur: nat) returns (next: nat)
      requires Valid() && cur < |raw| && hdrPos == 3
      modifies `payPos, `pending, payload
      ensures Shape() && cur <= next <= |raw|
      ensures payPos < payload.Length ==> cur < next
      ensures payload.Length == 0 ==> next == cur
      ensures pending == old(pending) + raw[cur..next]
    {
      hide Actions, U16;
      var take := Min(payload.Length - payPos, |raw| - cur);
      ghost var was := payload[..payPos];
      forall i | 0 <= i < take {
        payload[payPos + i] := raw[cur + i];
      }
      assert payload[..payPos + take] == was + raw[cur..cur + take];
      pending := pending + raw[cur..cur + take];
      payPos, next := payPos + take, cur + take;
    }

    /** One turn of the inner loop; `done` is the frame it dispatched, if any. */
    method Turn(raw: seq<byte>, cur: nat) returns (next: nat, ghost done: seq<Frame>)
      requires Valid() && cur < |raw|
      modifies this, hdr, payload
      ensures Valid() && cur <= next <= |raw|
      ensures payload == old(payload) || fresh(payload)
      ensures cur < next || (old(hdrPos) == 3 && hdrPos < 3)
      ensures dispatched == old(dispatched) + done
      ensures Parse(old(pending) + raw[cur..]) == After(done, pending + raw[next..])
    {
      if hdrPos < 3 {
        next := FillHeader(raw, cur);
        Moved(old(pending), raw, cur, next);
        done := [];
        return;
      }
      next := FillPayload(raw, cur);
      Moved(old(pending), raw, cur, next);
      if payPos < payload.Length {
        done := [];
      } else {
        done := DispatchFrom(raw[next..]);
      }
    }

    method DispatchFrom(tail: seq<byte>) returns (ghost done: seq<Frame>)
      requires Shape() && hdrPos == 3 && payPos == payload.Length
      requires payload.Length == 0 ==> tail != []
      modifies `hdrPos, `performed, `dispatched, `pending
      ensures Valid() && hdrPos == 0 && dispatched == old(dispatched) + done
      ensures Parse(old(pending) + tail) == After(done, pending + tail)
    {
      assert payload[..payPos] == payload[..];
      UnfoldParse(pending + tail, hdr[..], payload[..], tail);
      done := [Frame(hdr[0], payload[..])];
      Dispatch();
      assert pending + tail == tail;
    }

    /** The parser over the bytes of one read. */
    method Feed(raw: seq<byte>)
      requires Valid()
      modifies this, hdr, payload
      ensures Valid()
      ensures payload == old(payload) || fresh(payload)
      ensures var p := Parse(old(pending) + raw);
        dispatched == old(dispatched) + p.frames && pending == p.rest
    {
      hide Parse;
      ghost var done: seq<Frame> := [];
      var cur: nat := 0;
      assert forall f: seq<Frame> :: [] + f == f;
      assert raw[0..] == raw;
      while cur < |raw|
        invariant cur <= |raw| && Valid()
        invariant payload == old(payload) || fresh(payload)
        invariant dispatched == old(dispatched) + done
        invariant Parse(old(pending) + raw) == After(done, pending + raw[cur..])
        decreases |raw| - cur, hdrPos == 3
      {
        ghost var frames;
        cur, frames := Turn(raw, cur);
        Assoc(done, frames, Parse(pending + raw[cur..]).frames);
        done := done + frames;
      }
      assert pending + raw[cur..] == pending;
      ParseStops(pending);
    }
  }

  /** The client half of the relay loop: each read goes through the parser until the client closes. */
  method RelayClient(chunks: seq<seq<byte>>) returns (p: FrameParser)
    ensures p.Valid() && fresh(p)
    ensures p.dispatched == Parse(Concat(chunks)).frames && p.pending == Parse(Concat(chunks)).rest
    ensures p.performed == Actions(p.dispatched)
  {
    p := new FrameParser();
    assert chunks[..|chunks|] == chunks;
    for i := 0 to |chunks|
      invariant p.Valid() && fresh(p) && fresh(p.hdr) && fresh(p.payload)
      invariant Parsed(p.dispatched, p.pending) == ParseChunks(chunks[..i])
    {
      p.Feed(chunks[i]);
      assert chunks[..i + 1][..i] == chunks[..i];
    }
    ChunkingIrrelevant(chunks);
  }

  lemma Moved(pending: seq<byte>, raw: seq<byte>, cur: nat, next: nat)
    requires cur <= next <= |raw|
    ensures Parse(pending + raw[cur..]) == After([], pending + raw[cur..next] + raw[next..])
  {
    assert pending + raw[cur..] == pending + raw[cur..next] + raw[next..];
  }

  /** The parse of `done`'s bytes followed by `s`. */
  function After(done: seq<Frame>, s: seq<byte>): Parsed {
    Parsed(done + Parse(s).frames, Parse(s).rest)
  }

  function Min(a: nat, b: nat): nat {
    if a < b then a else b
  }
}
