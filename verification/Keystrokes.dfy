/** Recorded key events cut into timed segments of text, and the segments set as subtitles. */
module Keystrokes {
  import opened Wrappers
  import opened Text

  // ---- Keys ----

  datatype KeyEvent = KeyEvent(time: nat, keysym: nat, pressed: bool)

  datatype Action = Print(c: char) | Append(text: string) | Enter | Control(text: string) | Ignore

  predicate IsControl(ks: nat) {
    ks == 0xffe3 || ks == 0xffe4
  }

  predicate IsModifier(ks: nat) {
    0xffe1 <= ks <= 0xffe5 || 0xffe7 <= ks <= 0xffea || ks == 0xfe03 || ks == 0xff7f
  }

  function Label(ks: nat): string {
    if ks == 0xff08 then "[\U{232B}]"
    else if ks == 0xff1b then "[Esc]"
    else if ks == 0xff50 then "[Home]"
    else if ks == 0xff51 then "[\U{2190}]"
    else if ks == 0xff52 then "[\U{2191}]"
    else if ks == 0xff53 then "[\U{2192}]"
    else if ks == 0xff54 then "[\U{2193}]"
    else if ks == 0xff55 then "[PgUp]"
    else if ks == 0xff56 then "[PgDn]"
    else if ks == 0xff57 then "[End]"
    else if ks == 0xff63 then "[Ins]"
    else if ks == 0xffff then "[Del]"
    else if 0xffbe <= ks <= 0xffc6 then "[F" + ['1' + (ks - 0xffbe) as char] + "]"
    else if 0xffc7 <= ks <= 0xffc9 then "[F1" + ['0' + (ks - 0xffc7) as char] + "]"
    else ""
  }

  function Keypad(ks: nat): Option<char> {
    if 0xffb0 <= ks <= 0xffb9 then Some('0' + (ks - 0xffb0) as char)
    else if ks == 0xffaa then Some('*')
    else if ks == 0xffab then Some('+')
    else if ks == 0xffad then Some('-')
    else if ks == 0xffae then Some('.')
    else if ks == 0xffaf then Some('/')
    else None
  }

  /** `keysym_to_action` for a key that is no modifier; tabs and labels are appended. */
  function KeyAction(ks: nat, ctrl: bool): Action {
    if ctrl && (65 <= ks <= 90 || 97 <= ks <= 122) then Control("^" + [(if 97 <= ks then ks - 32 else ks) as char])
    else if 0x20 <= ks <= 0x7e then Print(ks as char)
    else if ks == 0xff09 then Append("\t")
    else if ks == 0xff0d || ks == 0xff8d then Enter
    else if Keypad(ks).Some? then Print(Keypad(ks).value)
    else if Label(ks) != "" then Append(Label(ks))
    else Ignore
  }

  // ---- What the keys mean ----

  const LETTERS: string := "ABCDEFGHIJKLMNOPQRSTUVWXYZ"

  /** The named keys and what they leave in the text. */
  const NAMED_KEYS: seq<(nat, string)> := [
    (0xff08, "[\U{232B}]"), (0xff1b, "[Esc]"), (0xff50, "[Home]"), (0xff51, "[\U{2190}]"), (0xff52, "[\U{2191}]"),
    (0xff53, "[\U{2192}]"), (0xff54, "[\U{2193}]"), (0xff55, "[PgUp]"), (0xff56, "[PgDn]"), (0xff57, "[End]"),
    (0xff63, "[Ins]"), (0xffff, "[Del]")]

  /** A visible ASCII character or a space types itself; with Ctrl a letter in either case is marked by a caret. */
  lemma CharactersMean(c: char, ctrl: bool, k: nat)
    requires ' ' <= c <= '~' && k < 26
    ensures !ctrl || !('A' <= c <= 'Z' || 'a' <= c <= 'z') ==> KeyAction(c as int, ctrl) == Print(c)
    ensures KeyAction('A' as int + k, true) == KeyAction('a' as int + k, true) == Control(['^', LETTERS[k]])
  {
    assert "^" + [LETTERS[k]] == ['^', LETTERS[k]];
    assert LETTERS[k] == ('A' as int + k) as char;
  }

  /** The keypad types its digits and signs, both Enter keys end the line, Tab is a tab. */
  lemma KeypadMeans(d: nat, ctrl: bool)
    requires d < 10
    ensures KeyAction(0xffb0 + d, ctrl) == Print("0123456789"[d])
    ensures KeyAction(0xffaa, ctrl) == Print('*') && KeyAction(0xffab, ctrl) == Print('+') && KeyAction(0xffad, ctrl) == Print('-')
    ensures KeyAction(0xffae, ctrl) == Print('.') && KeyAction(0xffaf, ctrl) == Print('/')
    ensures KeyAction(0xff0d, ctrl) == KeyAction(0xff8d, ctrl) == Enter && KeyAction(0xff09, ctrl) == Append("\t")
  {}

  lemma NamedKeysMean(i: nat, ctrl: bool)
    requires i < |NAMED_KEYS|
    ensures KeyAction(NAMED_KEYS[i].0, ctrl) == Append(NAMED_KEYS[i].1)
  {}

  /** F1 to F12. */
  lemma FunctionKeysMean(n: nat, ctrl: bool)
    requires 1 <= n <= 12
    ensures KeyAction(0xffbd + n, ctrl) == Append("[F" + Str(n) + "]")
  {
    StrUnfolds(n);
    StrUnfolds(n / 10);
    hide Str;
  }

  /** No other key does anything. */
  lemma OtherKeysMean(ks: nat, ctrl: bool)
    ensures KeyAction(ks, ctrl).Ignore? <==>
            && !(0x20 <= ks <= 0x7e) && !(0xffb0 <= ks <= 0xffb9) && !(0xffbe <= ks <= 0xffc9)
            && ks !in {0xffaa, 0xffab, 0xffad, 0xffae, 0xffaf, 0xff09, 0xff0d, 0xff8d}
            && ks !in {0xff08, 0xff1b, 0xff50, 0xff51, 0xff52, 0xff53, 0xff54, 0xff55, 0xff56, 0xff57, 0xff63, 0xffff}
  {}

  // ---- Segmenting ----

  const MAX_SEG_CHARS: nat := 72
  const PAUSE_THRESHOLD_MS: nat := 2000

  datatype Segment = Segment(start: nat, end: nat, text: string)

  /** The variables of `segment_events`. */
  datatype Scan = Scan(ctrl: bool, buf: string, start: nat, last: nat, segments: seq<Segment>)

  const BEGIN := Scan(false, "", 0, 0, [])

  /** Blank text makes no segment. */
  function Flush(s: Scan): Scan {
    var text := TrimEnd(s.buf, Rust);
    s.(buf := "", segments := if text == "" then s.segments else s.segments + [Segment(s.start, s.last, text)])
  }

  function LastSpace(s: string): (p: Option<nat>)
    ensures p.Some? ==> p.value < |s| && s[p.value] == ' '
    ensures forall i | (if p.Some? then p.value + 1 else 0) <= i < |s| :: s[i] != ' '
  {
    if s == "" then None else if s[|s| - 1] == ' ' then Some(|s| - 1) else LastSpace(s[..|s| - 1])
  }

  /** A full line is cut at its last space; what follows starts the next segment. */
  function Cut(s: Scan): Scan {
    match LastSpace(s.buf)
    case Some(p) => Flush(s.(buf := s.buf[..p])).(buf := s.buf[p + 1..], start := s.last)
    case None => Flush(s)
  }

  predicate Paused(s: Scan, time: nat) {
    s.buf != "" && PAUSE_THRESHOLD_MS <= if s.last <= time then time - s.last else 0
  }

  /** A pause ends the segment; an empty buffer starts one. */
  function Arrive(s: Scan, time: nat): Scan {
    var s := if Paused(s, time) then Flush(s) else s;
    s.(start := if s.buf == "" then time else s.start, last := time)
  }

  function Act(s: Scan, a: Action): Scan {
    match a
    case Print(c) =>
      var s := s.(buf := s.buf + [c]);
      if MAX_SEG_CHARS <= |s.buf| then Cut(s) else s
    case Append(text) => s.(buf := s.buf + text)
    case Enter => Flush(s)
    case Control(text) => Flush(s.(buf := s.buf + text))
    case Ignore => s
  }

  function Step(s: Scan, ev: KeyEvent): Scan {
    if IsControl(ev.keysym) then s.(ctrl := ev.pressed)
    else if !ev.pressed || IsModifier(ev.keysym) then s
    else Act(Arrive(s, ev.time), KeyAction(ev.keysym, s.ctrl))
  }

  function ScanAll(events: seq<KeyEvent>): Scan {
    if events == [] then BEGIN else Step(ScanAll(events[..|events| - 1]), events[|events| - 1])
  }

  function Segments(events: seq<KeyEvent>): seq<Segment> {
    Flush(ScanAll(events)).segments
  }

  method FlushBuffer(ghost ctrl: bool, buf: string, start: nat, last: nat, segs: seq<Segment>) returns (segs': seq<Segment>)
    ensures Scan(ctrl, "", start, last, segs') == Flush(Scan(ctrl, buf, start, last, segs))
  {
    hide TrimEnd;
    var t := TrimEnd(buf, Rust);
    segs' := segs;
    if t != "" {
      segs' := segs' + [Segment(start, last, t)];
    }
  }

  /** The loop body of `segment_events`. */
  method OnEvent(ev: KeyEvent, ctrl: bool, buf: string, start: nat, last: nat, segs: seq<Segment>)
    returns (ctrl': bool, buf': string, start': nat, last': nat, segs': seq<Segment>)
    ensures Scan(ctrl', buf', start', last', segs') == Step(Scan(ctrl, buf, start, last, segs), ev)
  {
    hide KeyAction, Flush;
    ctrl', buf', start', last', segs' := ctrl, buf, start, last, segs;
    if !ev.pressed {
      if IsControl(ev.keysym) { ctrl' := false; }
      return;
    }
    if IsControl(ev.keysym) {
      ctrl' := true;
      return;
    }
    if IsModifier(ev.keysym) {
      return;
    }
    if buf' != "" && PAUSE_THRESHOLD_MS <= (if last' <= ev.time then ev.time - last' else 0) {
      segs' := FlushBuffer(ctrl, buf', start', last', segs');
      buf' := "";
    }
    if buf' == "" { start' := ev.time; }
    last' := ev.time;
    assert Scan(ctrl', buf', start', last', segs') == Arrive(Scan(ctrl, buf, start, last, segs), ev.time) by {
      FlushKeeps(Scan(ctrl, buf, start, last, segs));
    }
    buf', start', segs' := Perform(KeyAction(ev.keysym, ctrl), ctrl, buf', start', last', segs');
  }

  method Perform(a: Action, ghost ctrl: bool, buf: string, start: nat, last: nat, segs: seq<Segment>)
    returns (buf': string, start': nat, segs': seq<Segment>)
    ensures Scan(ctrl, buf', start', last, segs') == Act(Scan(ctrl, buf, start, last, segs), a)
  {
    hide Flush;
    buf', start', segs' := buf, start, segs;
    match a
    case Print(c) =>
      buf' := buf' + [c];
      if MAX_SEG_CHARS <= |buf'| {
        var p := LastSpace(buf');
        if p.Some? {
          var tail := buf'[p.value + 1..];
          segs' := FlushBuffer(ctrl, buf'[..p.value], start', last, segs');
          buf', start' := tail, last;
        } else {
          segs' := FlushBuffer(ctrl, buf', start', last, segs');
          buf' := "";
        }
      }
    case Append(text) => buf' := buf' + text;
    case Enter =>
      segs' := FlushBuffer(ctrl, buf', start', last, segs');
      buf' := "";
    case Control(text) =>
      segs' := FlushBuffer(ctrl, buf' + text, start', last, segs');
      buf' := "";
    case Ignore =>
  }

  method SegmentEvents(events: seq<KeyEvent>) returns (segments: seq<Segment>)
    ensures segments == Segments(events)
  {
    hide Step, Flush;
    var ctrl, buf, start, last := false, "", 0, 0;
    segments := [];
    for i := 0 to |events|
      invariant Scan(ctrl, buf, start, last, segments) == ScanAll(events[..i])
    {
      assert events[..i + 1][..i] == events[..i];
      ctrl, buf, start, last, segments := OnEvent(events[i], ctrl, buf, start, last, segments);
    }
    assert events[..|events|] == events;
    segments := FlushBuffer(ctrl, buf, start, last, segments);
  }

  lemma FlushKeeps(s: Scan)
    ensures var f := Flush(s); f.ctrl == s.ctrl && f.buf == "" && f.start == s.start && f.last == s.last
  {}

  // ---- Times ----

  predicate Ordered(segments: seq<Segment>) {
    && (forall i | 0 <= i < |segments| :: segments[i].start <= segments[i].end)
    && (forall i | 0 <= i < |segments| - 1 :: segments[i].end <= segments[i + 1].start)
  }

  predicate EndedBy(segments: seq<Segment>, time: nat) {
    segments != [] ==> segments[|segments| - 1].end <= time
  }

  predicate Timely(s: Scan) {
    && Ordered(s.segments) && EndedBy(s.segments, s.last)
    && (s.buf != "" ==> EndedBy(s.segments, s.start) && s.start <= s.last)
  }

  lemma FlushTimely(s: Scan)
    requires Timely(s)
    ensures Timely(Flush(s))
  {}

  lemma CutTimely(s: Scan)
    requires Timely(s) && s.buf != ""
    ensures Timely(Cut(s)) && Cut(s).last == s.last
  {
    match LastSpace(s.buf)
    case Some(p) =>
      FlushTimely(s.(buf := s.buf[..p]));
    case None => FlushTimely(s);
  }

  lemma ArriveTimely(s: Scan, time: nat)
    requires Timely(s) && s.last <= time
    ensures var a := Arrive(s, time);
      Timely(a) && EndedBy(a.segments, a.start) && a.start <= a.last == time && a.ctrl == s.ctrl
  {
    FlushTimely(s);
    FlushKeeps(s);
    hide Flush;
  }

  lemma ActTimely(a: Scan, act: Action)
    requires Timely(a) && EndedBy(a.segments, a.start) && a.start <= a.last
    ensures Timely(Act(a, act)) && Act(a, act).last == a.last
  {
    match act
    case Print(c) =>
      CutTimely(a.(buf := a.buf + [c]));
      hide Cut;
    case Control(text) =>
      FlushTimely(a.(buf := a.buf + text));
      FlushKeeps(a.(buf := a.buf + text));
      hide Flush;
    case Enter =>
      FlushTimely(a);
      FlushKeeps(a);
      hide Flush;
    case _ =>
  }

  lemma StepTimely(s: Scan, ev: KeyEvent)
    requires Timely(s) && s.last <= ev.time
    ensures Timely(Step(s, ev)) && Step(s, ev).last <= ev.time
  {
    ArriveTimely(s, ev.time);
    ActTimely(Arrive(s, ev.time), KeyAction(ev.keysym, s.ctrl));
    hide KeyAction, Arrive, Act;
  }

  predicate TimeOrdered(events: seq<KeyEvent>) {
    forall i, j | 0 <= i < j < |events| :: events[i].time <= events[j].time
  }

  lemma {:induction false} ScanTimely(events: seq<KeyEvent>)
    requires TimeOrdered(events)
    ensures Timely(ScanAll(events)) && (events != [] ==> ScanAll(events).last <= events[|events| - 1].time)
  {
    hide Step, Timely;
    if events != [] {
      var n := |events| - 1;
      ScanTimely(events[..n]);
      assert ScanAll(events[..n]).last <= events[n].time by {
        if 0 < n { assert events[..n][n - 1] == events[n - 1]; }
      }
      StepTimely(ScanAll(events[..n]), events[n]);
    } else {
      assert Timely(BEGIN) by { BeginTimely(); }
    }
  }

  lemma BeginTimely()
    ensures Timely(BEGIN)
  {}

  /** Segments of time-ordered events end no earlier than they start and no later than the next starts. */
  lemma SegmentsOrdered(events: seq<KeyEvent>)
    requires TimeOrdered(events)
    ensures Ordered(Segments(events))
  {
    hide ScanAll;
    ScanTimely(events);
    FlushTimely(ScanAll(events));
  }

  // ---- Text ----

  /** The text without its white space. */
  function Visible(s: string): string {
    if s == "" then "" else Visible(s[..|s| - 1]) + if Space(Rust, s[|s| - 1]) then "" else [s[|s| - 1]]
  }

  lemma {:induction false} VisibleConcat(a: string, b: string)
    ensures Visible(a + b) == Visible(a) + Visible(b)
  {
    hide Space;
    if b == "" {
      assert a + b == a;
    } else {
      var n := |b| - 1;
      assert (a + b)[..|a + b| - 1] == a + b[..n];
      VisibleConcat(a, b[..n]);
    }
  }

  lemma {:induction false} TrimEndVisible(s: string)
    ensures Visible(TrimEnd(s, Rust)) == Visible(s)
  {
    hide Space;
    if s != "" && Space(Rust, s[|s| - 1]) {
      TrimEndVisible(s[..|s| - 1]);
    }
  }

  function Texts(segments: seq<Segment>): string {
    if segments == [] then "" else Texts(segments[..|segments| - 1]) + segments[|segments| - 1].text
  }

  /** All text a scan holds. */
  function Held(s: Scan): string {
    Visible(Texts(s.segments) + s.buf)
  }

  /** What an event types. */
  function Typed(ctrl: bool, ev: KeyEvent): string {
    if !ev.pressed || IsControl(ev.keysym) || IsModifier(ev.keysym) then "" else ActionText(KeyAction(ev.keysym, ctrl))
  }

  lemma FlushHeld(s: Scan)
    ensures Held(Flush(s)) == Held(s)
  {
    hide Visible;
    var text := TrimEnd(s.buf, Rust);
    TrimEndVisible(s.buf);
    hide TrimEnd;
    VisibleConcat(Texts(s.segments), s.buf);
    VisibleConcat(Texts(s.segments), text);
    assert Texts(Flush(s).segments) + "" == Texts(Flush(s).segments);
    if text == "" {
      assert Texts(s.segments) + text == Texts(s.segments);
    } else {
      assert Flush(s).segments[..|s.segments|] == s.segments;
    }
  }

  lemma SpaceVisible()
    ensures Visible(" ") == ""
  {
    assert " "[..0] == "";
  }

  /** A dropped space does not show. */
  lemma VisibleAcrossSpace(a: string, b: string, c: string)
    ensures Visible(a + (b + " " + c)) == Visible(a + b) + Visible(c)
  {
    SpaceVisible();
    hide Visible;
    assert a + (b + " " + c) == a + b + (" " + c);
    VisibleConcat(a + b, " " + c);
    VisibleConcat(" ", c);
    assert "" + Visible(c) == Visible(c);
  }

  lemma CutText(before: string, head: string, rest: string, done: string)
    requires Visible(done) == Visible(before + head)
    ensures Visible(done + rest) == Visible(before + (head + " " + rest))
  {
    hide Visible;
    VisibleAcrossSpace(before, head, rest);
    VisibleConcat(done, rest);
  }

  lemma LastSpaceSplits(s: string, p: nat)
    requires p < |s| && s[p] == ' '
    ensures s == s[..p] + " " + s[p + 1..]
  {}

  lemma CutHeld(s: Scan)
    ensures Held(Cut(s)) == Held(s)
  {
    match LastSpace(s.buf)
    case Some(p) =>
      var head := s.(buf := s.buf[..p]);
      FlushHeld(head);
      FlushKeeps(head);
      LastSpaceSplits(s.buf, p);
      var done := Texts(Flush(head).segments);
      assert done + "" == done;
      hide Flush, Visible, LastSpace, Texts;
      CutText(Texts(s.segments), s.buf[..p], s.buf[p + 1..], done);
    case None => FlushHeld(s);
  }

  lemma AppendHeld(s: Scan, text: string)
    ensures Held(s.(buf := s.buf + text)) == Held(s) + Visible(text)
  {
    hide Visible;
    var before := Texts(s.segments);
    assert before + (s.buf + text) == before + s.buf + text;
    VisibleConcat(before + s.buf, text);
  }

  lemma ArriveHeld(s: Scan, time: nat)
    ensures Held(Arrive(s, time)) == Held(s) && Arrive(s, time).ctrl == s.ctrl
  {
    FlushHeld(s);
    FlushKeeps(s);
    hide Flush, Visible;
  }

  function ActionText(a: Action): string {
    match a
    case Print(c) => [c]
    case Append(text) => text
    case Control(text) => text
    case _ => ""
  }

  lemma ActHeld(a: Scan, act: Action)
    ensures Held(Act(a, act)) == Held(a) + Visible(ActionText(act))
  {
    assert Visible("") == "" && Held(a) + "" == Held(a);
    hide Flush, Cut, Held, Visible;
    match act
    case Print(c) =>
      AppendHeld(a, [c]);
      CutHeld(a.(buf := a.buf + [c]));
    case Append(text) => AppendHeld(a, text);
    case Control(text) =>
      AppendHeld(a, text);
      FlushHeld(a.(buf := a.buf + text));
    case Enter => FlushHeld(a);
    case Ignore =>
  }

  lemma StepHeld(s: Scan, ev: KeyEvent)
    ensures Held(Step(s, ev)) == Held(s) + Visible(Typed(s.ctrl, ev))
  {
    ArriveHeld(s, ev.time);
    ActHeld(Arrive(s, ev.time), KeyAction(ev.keysym, s.ctrl));
    assert Visible("") == "" && Held(s) + "" == Held(s);
    assert Held(s.(ctrl := ev.pressed)) == Held(s);
    hide KeyAction, Arrive, Act, Held, Visible, ActionText;
  }

  function AllTyped(events: seq<KeyEvent>): string {
    if events == [] then ""
    else
      var n := |events| - 1;
      AllTyped(events[..n]) + Typed(ScanAll(events[..n]).ctrl, events[n])
  }

  lemma {:induction false} ScanHeld(events: seq<KeyEvent>)
    ensures Held(ScanAll(events)) == Visible(AllTyped(events))
  {
    if events == [] {
      assert Texts([]) + "" == "";
    } else {
      var n := |events| - 1;
      hide Step, Typed, Held, Visible;
      ScanHeld(events[..n]);
      StepHeld(ScanAll(events[..n]), events[n]);
      VisibleConcat(AllTyped(events[..n]), Typed(ScanAll(events[..n]).ctrl, events[n]));
    }
  }

  /** The segments hold every visible character typed, in order, and nothing else. */
  lemma SegmentsKeepText(events: seq<KeyEvent>)
    ensures Visible(Texts(Segments(events))) == Visible(AllTyped(events))
  {
    hide ScanAll, Visible, Flush;
    ScanHeld(events);
    FlushHeld(ScanAll(events));
    FlushKeeps(ScanAll(events));
    assert Texts(Segments(events)) + "" == Texts(Segments(events));
  }

  // ---- Typing ----

  predicate Printable(text: string) {
    forall i | 0 <= i < |text| :: ' ' <= text[i] <= '~'
  }

  /** The text typed at one moment, each key pressed and let go. */
  function Typing(text: string, time: nat): seq<KeyEvent>
  {
    if text == "" then []
    else Typing(text[..|text| - 1], time) +
         [KeyEvent(time, text[|text| - 1] as int, true), KeyEvent(time, text[|text| - 1] as int, false)]
  }

  function ScanFrom(s: Scan, events: seq<KeyEvent>): Scan {
    if events == [] then s else Step(ScanFrom(s, events[..|events| - 1]), events[|events| - 1])
  }

  lemma {:induction false} ScanAppend(a: seq<KeyEvent>, b: seq<KeyEvent>)
    ensures ScanAll(a + b) == ScanFrom(ScanAll(a), b)
  {
    hide Step;
    if b == [] {
      assert a + b == a;
    } else {
      var n := |b| - 1;
      assert (a + b)[..|a| + n] == a + b[..n];
      ScanAppend(a, b[..n]);
    }
  }

  lemma {:induction false} FromBegin(events: seq<KeyEvent>)
    ensures ScanFrom(BEGIN, events) == ScanAll(events)
  {
    ScanAppend([], events);
    assert [] + events == events;
  }

  function Press(c: char, time: nat): KeyEvent {
    KeyEvent(time, c as int, true)
  }

  function LetGo(c: char, time: nat): KeyEvent {
    KeyEvent(time, c as int, false)
  }

  lemma PressOne(s: Scan, c: char, time: nat)
    requires !s.ctrl && ' ' <= c <= '~' && |s.buf| + 1 < MAX_SEG_CHARS && (s.buf == "" || s.last <= time < s.last + PAUSE_THRESHOLD_MS)
    ensures var t := Step(Step(s, Press(c, time)), LetGo(c, time));
      t == s.(buf := s.buf + [c], start := if s.buf == "" then time else s.start, last := time)
  {
    hide Flush, Label, Keypad, Cut;
  }

  lemma TypingUnfolds(s: Scan, text: string, time: nat)
    requires text != ""
    ensures var n := |text| - 1;
      ScanFrom(s, Typing(text, time)) ==
      Step(Step(ScanFrom(s, Typing(text[..n], time)), Press(text[n], time)), LetGo(text[n], time))
  {
    var n := |text| - 1;
    var before, press, release := Typing(text[..n], time), Press(text[n], time), LetGo(text[n], time);
    var all := Typing(text, time);
    assert all == before + [press, release];
    hide Step, Typing;
    assert all[..|all| - 1] == before + [press] && (before + [press])[..|before|] == before;
    assert ScanFrom(s, before + [press]) == Step(ScanFrom(s, before), press);
  }

  lemma PrintableFront(text: string)
    requires Printable(text) && text != ""
    ensures Printable(text[..|text| - 1]) && ' ' <= text[|text| - 1] <= '~'
  {}

  lemma TypingNothing(s: Scan, time: nat)
    ensures Typing("", time) == [] && ScanFrom(s, []) == s
  {}

  function Filled(s: Scan, text: string, time: nat): Scan {
    s.(buf := s.buf + text, start := if s.buf == "" then time else s.start, last := time)
  }

  lemma FilledIs(s: Scan, text: string, time: nat)
    ensures Filled(s, text, time) == s.(buf := s.buf + text, start := if s.buf == "" then time else s.start, last := time)
  {}

  lemma OneMoreKey(s: Scan, mid: Scan, before: string, c: char, time: nat)
    requires !s.ctrl && ' ' <= c <= '~' && |s.buf| + |before| + 1 < MAX_SEG_CHARS
    requires before != "" && mid == Filled(s, before, time)
    ensures Step(Step(mid, Press(c, time)), LetGo(c, time)) == Filled(s, before + [c], time)
  {
    PressOne(mid, c, time);
    hide Step, Press, LetGo;
    assert s.buf + before + [c] == s.buf + (before + [c]);
  }

  /** Words typed without a pause end up in the buffer, up to the length of a line. */
  lemma {:induction false} TypingFills(s: Scan, text: string, time: nat)
    requires !s.ctrl && Printable(text) && text != "" && |s.buf| + |text| < MAX_SEG_CHARS
    requires s.buf == "" || s.last <= time < s.last + PAUSE_THRESHOLD_MS
    ensures ScanFrom(s, Typing(text, time)) == Filled(s, text, time)
    decreases |text|
  {
    var n := |text| - 1;
    var before := text[..n];
    TypingUnfolds(s, text, time);
    TypingNothing(s, time);
    PrintableFront(text);
    hide *;
    if n == 0 {
      assert before == "" && [text[0]] == text;
      PressOne(s, text[0], time);
      FilledIs(s, text, time);
    } else {
      TypingFills(s, before, time);
      OneMoreKey(s, ScanFrom(s, Typing(before, time)), before, text[n], time);
      assert before + [text[n]] == text;
    }
  }

  predicate Word(w: string) {
    w != "" && Printable(w) && w[0] != ' ' && w[|w| - 1] != ' '
  }

  lemma FlushWord(s: Scan)
    requires s.buf != "" && Printable(s.buf) && s.buf[|s.buf| - 1] != ' '
    ensures Flush(s) == s.(buf := "", segments := s.segments + [Segment(s.start, s.last, s.buf)])
  {
    TrimEndStops(s.buf, "", Rust);
    assert s.buf + "" == s.buf;
    hide TrimEnd;
  }

  lemma PlainKey(c: char, time: nat)
    requires ' ' <= c <= '~'
    ensures var ev := Press(c, time); ev.time == time && ev.pressed && !IsControl(ev.keysym) && !IsModifier(ev.keysym)
  {}

  lemma PausedPress(s: Scan, ev: KeyEvent)
    requires Paused(s, ev.time) && ev.pressed && !IsControl(ev.keysym) && !IsModifier(ev.keysym)
    ensures Step(s, ev) == Step(Flush(s), ev)
  {
    hide TrimEnd, KeyAction, Act;
  }

  /** A pause before the first key ends what was typed before. */
  lemma {:induction false} TypingFlushes(s: Scan, text: string, time: nat)
    requires Paused(s, time) && Printable(text) && text != ""
    ensures ScanFrom(s, Typing(text, time)) == ScanFrom(Flush(s), Typing(text, time))
    decreases |text|
  {
    var n := |text| - 1;
    TypingUnfolds(s, text, time);
    TypingUnfolds(Flush(s), text, time);
    TypingNothing(s, time);
    TypingNothing(Flush(s), time);
    PrintableFront(text);
    PlainKey(text[n], time);
    hide *;
    if n == 0 {
      assert text[..n] == "";
      PausedPress(s, Press(text[n], time));
    } else {
      TypingFlushes(s, text[..n], time);
    }
  }

  lemma EnterEnds(s: Scan, time: nat)
    requires s.buf != "" && Printable(s.buf) && s.buf[|s.buf| - 1] != ' ' && s.last == time
    ensures ScanFrom(s, [KeyEvent(time, 0xff0d, true)]) == s.(buf := "", segments := s.segments + [Segment(s.start, time, s.buf)])
  {
    var ev := KeyEvent(time, 0xff0d, true);
    assert [ev][..0] == [] && ScanFrom(s, []) == s;
    FlushWord(s);
    hide Flush;
    assert KeyAction(0xff0d, s.ctrl) == Enter by { KeypadMeans(0, s.ctrl); }
    hide KeyAction;
  }

  /** One word typed from the start. */
  lemma FirstWord(a: string, t: nat)
    requires Word(a) && |a| < MAX_SEG_CHARS
    ensures ScanAll(Typing(a, t)) == Scan(false, a, t, t, [])
    ensures Flush(Scan(false, a, t, t, [])) == Scan(false, "", t, t, [Segment(t, t, a)])
  {
    FromBegin(Typing(a, t));
    TypingFills(BEGIN, a, t);
    hide Typing, ScanAll, ScanFrom, Flush;
    assert "" + a == a;
    FlushWord(Scan(false, a, t, t, []));
    assert [] + [Segment(t, t, a)] == [Segment(t, t, a)];
  }

  lemma SecondWord(events: seq<KeyEvent>, b: string, u: nat, done: seq<Segment>)
    requires ScanAll(events).buf == b && ScanAll(events).last == u && ScanAll(events).segments == done
    requires b != "" && Printable(b) && b[|b| - 1] != ' '
    ensures Segments(events) == done + [Segment(ScanAll(events).start, u, b)]
  {
    FlushWord(ScanAll(events));
    hide ScanAll, Flush;
  }

  /** Two words make two segments exactly when two seconds or more pass between them. */
  lemma PauseSplits(a: string, b: string, t: nat, u: nat)
    requires Word(a) && Word(b) && |a| + |b| < 72 && t <= u
    ensures Segments(Typing(a, t) + Typing(b, u)) ==
            if t + 2000 <= u then [Segment(t, t, a), Segment(u, u, b)] else [Segment(t, u, a + b)]
  {
    var one, apart := Scan(false, a, t, t, []), Scan(false, "", t, t, [Segment(t, t, a)]);
    FirstWord(a, t);
    ScanAppend(Typing(a, t), Typing(b, u));
    hide Typing, ScanAll, ScanFrom, Flush, Segments;
    var all := Typing(a, t) + Typing(b, u);
    if t + 2000 <= u {
      TypingFlushes(one, b, u);
      TypingFills(apart, b, u);
      assert "" + b == b;
      SecondWord(all, b, u, apart.segments);
      assert [Segment(t, t, a)] + [Segment(u, u, b)] == [Segment(t, t, a), Segment(u, u, b)];
    } else {
      TypingFills(one, b, u);
      SecondWord(all, a + b, u, []);
      assert [] + [Segment(t, u, a + b)] == [Segment(t, u, a + b)];
    }
  }

  /** So does Enter, without any pause. */
  lemma EnterSplits(a: string, b: string, t: nat, u: nat)
    requires Word(a) && Word(b) && |a| < 72 && |b| < 72 && t <= u
    ensures Segments(Typing(a, t) + [KeyEvent(t, 0xff0d, true)] + Typing(b, u)) == [Segment(t, t, a), Segment(u, u, b)]
  {
    var one, apart := Scan(false, a, t, t, []), Scan(false, "", t, t, [Segment(t, t, a)]);
    var key := [KeyEvent(t, 0xff0d, true)];
    FirstWord(a, t);
    EnterEnds(one, t);
    assert one.segments + [Segment(t, t, a)] == apart.segments;
    ScanAppend(Typing(a, t), key);
    ScanAppend(Typing(a, t) + key, Typing(b, u));
    hide Typing, ScanAll, ScanFrom, Flush, Segments, Label, Keypad;
    TypingFills(apart, b, u);
    assert "" + b == b;
    SecondWord(Typing(a, t) + key + Typing(b, u), b, u, apart.segments);
    assert [Segment(t, t, a)] + [Segment(u, u, b)] == [Segment(t, t, a), Segment(u, u, b)];
  }

  lemma {:induction false} LastSpaceAt(a: string, b: string)
    requires ' ' !in b
    ensures LastSpace(a + " " + b) == Some(|a|)
    decreases |b|
  {
    var s := a + " " + b;
    if b == "" {
      assert s[|s| - 1] == ' ';
    } else {
      var n := |b| - 1;
      assert s[|s| - 1] == b[n] && b[n] in b;
      assert s[..|s| - 1] == a + " " + b[..n];
      LastSpaceAt(a, b[..n]);
    }
  }

  lemma PressFull(s: Scan, c: char, a: string, b: string, time: nat)
    requires !s.ctrl && ' ' <= c <= '~' && s.buf != "" && s.last == time
    requires |s.buf| == 71 && s.buf + [c] == a + " " + b && ' ' !in b && a != "" && Printable(a) && a[|a| - 1] != ' '
    ensures Step(Step(s, Press(c, time)), LetGo(c, time)) ==
            s.(buf := b, start := time, segments := s.segments + [Segment(s.start, time, a)])
  {
    LastSpaceAt(a, b);
    FlushWord(s.(buf := a));
    var full := s.(buf := a + " " + b);
    assert full.buf[..|a|] == a && full.buf[|a| + 1..] == b;
    assert KeyAction(c as int, false) == Print(c) by { CharactersMean(c, false, 0); }
    hide KeyAction, Flush, LastSpace;
    assert Cut(full) == Flush(full.(buf := a)).(buf := b, start := time);
    PlainKey(c, time);
  }

  lemma LineText(a: string, b: string)
    requires Word(a) && Word(b) && |a| + 1 + |b| == 72
    ensures var text := a + " " + b;
      && |text| == 72 && Printable(text[..71]) && ' ' <= text[71] <= '~' && text[..71] + [text[71]] == text
      && "" + text[..71] == text[..71]
  {}

  lemma TypedBut(text: string, t: nat)
    requires |text| == 72 && Printable(text[..71])
    ensures ScanAll(Typing(text, t)) ==
            Step(Step(Scan(false, text[..71], t, t, []), Press(text[71], t)), LetGo(text[71], t))
  {
    FromBegin(Typing(text, t));
    TypingUnfolds(BEGIN, text, t);
    TypingFills(BEGIN, text[..71], t);
    FilledIs(BEGIN, text[..71], t);
    hide *;
    assert "" + text[..71] == text[..71];
  }

  lemma WordEnds(w: string)
    requires Word(w)
    ensures w != "" && Printable(w) && w[|w| - 1] != ' '
  {}

  /** The character that makes 72 cuts the line at its last space, and the rest begins the next segment. */
  lemma FullLineCuts(a: string, b: string, t: nat)
    requires Word(a) && Word(b) && ' ' !in b && |a| + 1 + |b| == 72
    ensures Segments(Typing(a + " " + b, t)) == [Segment(t, t, a), Segment(t, t, b)]
  {
    var text := a + " " + b;
    LineText(a, b);
    TypedBut(text, t);
    WordEnds(a);
    WordEnds(b);
    hide *;
    PressFull(Scan(false, text[..71], t, t, []), text[71], a, b, t);
    assert [] + [Segment(t, t, a)] == [Segment(t, t, a)];
    SecondWord(Typing(text, t), b, t, [Segment(t, t, a)]);
    assert [Segment(t, t, a)] + [Segment(t, t, b)] == [Segment(t, t, a), Segment(t, t, b)];
  }

  lemma PressFullWord(s: Scan, c: char, time: nat)
    requires !s.ctrl && ' ' < c <= '~' && s.last == time && |s.buf| == 71 && Printable(s.buf) && ' ' !in s.buf
    ensures Step(Step(s, Press(c, time)), LetGo(c, time)) ==
            s.(buf := "", segments := s.segments + [Segment(s.start, time, s.buf + [c])])
  {
    var full := s.(buf := s.buf + [c]);
    assert LastSpace(full.buf).None?;
    FlushWord(full);
    assert KeyAction(c as int, false) == Print(c) by { CharactersMean(c, false, 0); }
    hide KeyAction, Flush, LastSpace;
    assert Cut(full) == Flush(full);
    PlainKey(c, time);
  }

  lemma SolidFront(a: string)
    requires Word(a) && ' ' !in a && |a| == 72
    ensures Printable(a[..71]) && ' ' !in a[..71] && ' ' < a[71] <= '~' && a[..71] + [a[71]] == a
  {
    assert a[71] in a;
  }

  lemma TypedFull(a: string, t: nat)
    requires Word(a) && ' ' !in a && |a| == 72
    ensures ScanAll(Typing(a, t)) == Scan(false, "", t, t, [Segment(t, t, a)])
  {
    SolidFront(a);
    TypedBut(a, t);
    hide *;
    PressFullWord(Scan(false, a[..71], t, t, []), a[71], t);
    assert [] + [Segment(t, t, a)] == [Segment(t, t, a)];
  }

  /** A full line without a space is a segment as it is. */
  lemma FullWordCuts(a: string, b: string, t: nat)
    requires Word(a) && Word(b) && ' ' !in a && |a| == 72 && |b| < 72
    ensures Segments(Typing(a, t) + Typing(b, t)) == [Segment(t, t, a), Segment(t, t, b)]
  {
    var apart := Scan(false, "", t, t, [Segment(t, t, a)]);
    TypedFull(a, t);
    ScanAppend(Typing(a, t), Typing(b, t));
    WordEnds(b);
    hide *;
    TypingFills(apart, b, t);
    FilledIs(apart, b, t);
    assert "" + b == b;
    SecondWord(Typing(a, t) + Typing(b, t), b, t, [Segment(t, t, a)]);
    assert [Segment(t, t, a)] + [Segment(t, t, b)] == [Segment(t, t, a), Segment(t, t, b)];
  }

  // ---- Keys that are held ----

  /** Modifiers leave all but the Ctrl state alone, and so does letting a key go. */
  lemma IdleKeys(s: Scan, ev: KeyEvent)
    ensures ev.keysym in {0xffe3, 0xffe4} ==> Step(s, ev) == s.(ctrl := ev.pressed)
    ensures ev.keysym !in {0xffe3, 0xffe4} ==>
              if !ev.pressed || ev.keysym in {0xffe1, 0xffe2, 0xffe5, 0xffe7, 0xffe8, 0xffe9, 0xffea, 0xfe03, 0xff7f} then Step(s, ev) == s
              else Step(s, ev).last == ev.time && Step(s, ev).ctrl == s.ctrl
  {
    hide TrimEnd, KeyAction;
  }

  /** A label or a tab is added to the line without cutting it, however long it gets. */
  lemma LabelsNeverCut(s: Scan, ks: nat, time: nat)
    requires KeyAction(ks, s.ctrl).Append? && (s.buf == "" || time < s.last + 2000)
    ensures var t := Step(s, KeyEvent(time, ks, true));
      t.buf == s.buf + KeyAction(ks, s.ctrl).text && t.segments == s.segments && t.start == if s.buf == "" then time else s.start
  {
    OtherKeysMean(ks, s.ctrl);
    hide Flush, KeyAction;
  }

  lemma ScanFour(s: Scan, e: seq<KeyEvent>)
    requires |e| == 4
    ensures ScanFrom(s, e) == Step(Step(Step(Step(s, e[0]), e[1]), e[2]), e[3])
  {
    hide Step;
    assert e[..3][..2] == e[..2] && e[..2][..1] == e[..1] && e[..1][..0] == [];
    assert ScanFrom(s, e[..1]) == Step(ScanFrom(s, []), e[0]);
    assert ScanFrom(s, e[..2]) == Step(ScanFrom(s, e[..1]), e[1]);
    assert ScanFrom(s, e[..3]) == Step(ScanFrom(s, e[..2]), e[2]);
  }

  function Caret(k: nat): string
    requires k < 26
  {
    ['^', LETTERS[k]]
  }

  /** Ctrl held down, a letter pressed and let go, Ctrl let go. */
  function Chord(control: nat, k: nat, time: nat): seq<KeyEvent> {
    [KeyEvent(time, control, true), KeyEvent(time, 'a' as int + k, true),
     KeyEvent(time, 'a' as int + k, false), KeyEvent(time, control, false)]
  }

  lemma ChordEnds(s: Scan, control: nat, k: nat, time: nat)
    requires control in {0xffe3, 0xffe4} && k < 26 && !s.ctrl && s.buf != "" && Printable(s.buf) && s.last == time
    ensures ScanFrom(s, Chord(control, k, time)) ==
            s.(buf := "", segments := s.segments + [Segment(s.start, time, s.buf + Caret(k))])
  {
    ScanFour(s, Chord(control, k, time));
    CharactersMean('a', true, k);
    hide Flush, KeyAction, ScanFrom;
    var marked := s.(ctrl := true, buf := s.buf + Caret(k));
    FlushWord(marked);
    var letter := KeyEvent(time, 'a' as int + k, true);
    assert Step(s.(ctrl := true), letter) == Flush(marked);
  }

  lemma FirstMarked(a: string, control: nat, k: nat, t: nat)
    requires Word(a) && |a| < 72 && control in {0xffe3, 0xffe4} && k < 26
    ensures ScanAll(Typing(a, t) + Chord(control, k, t)) == Scan(false, "", t, t, [Segment(t, t, a + Caret(k))])
  {
    WordEnds(a);
    FirstWord(a, t);
    hide *;
    ChordEnds(Scan(false, a, t, t, []), control, k, t);
    assert [] + [Segment(t, t, a + Caret(k))] == [Segment(t, t, a + Caret(k))];
    ScanAppend(Typing(a, t), Chord(control, k, t));
  }

  /** A letter typed with Ctrl is marked, ends its segment, and what is typed after Ctrl is let go is text again. */
  lemma ControlSplits(a: string, control: nat, k: nat, b: string, t: nat, u: nat)
    requires Word(a) && Word(b) && |a| < 72 && |b| < 72 && t <= u && control in {0xffe3, 0xffe4} && k < 26
    ensures Segments(Typing(a, t) + Chord(control, k, t) + Typing(b, u)) == [Segment(t, t, a + Caret(k)), Segment(u, u, b)]
  {
    assert |b| < MAX_SEG_CHARS;
    hide *;
    var first := Segment(t, t, a + Caret(k));
    var apart := Scan(false, "", t, t, [first]);
    FirstMarked(a, control, k, t);
    ScanAppend(Typing(a, t) + Chord(control, k, t), Typing(b, u));
    WordEnds(b);
    TypingFills(apart, b, u);
    FilledIs(apart, b, u);
    assert "" + b == b;
    SecondWord(Typing(a, t) + Chord(control, k, t) + Typing(b, u), b, u, [first]);
    assert [first] + [Segment(u, u, b)] == [first, Segment(u, u, b)];
  }
}
