/** Wrapping segment text and setting it as subtitle cues. */
module Subtitles {
  import opened Keystrokes

  const SRT_LINE_LEN: nat := 45
  const SRT_MAX_LINES: nat := 2
  const SRT_HOLD_MS: nat := 3000

  // ---- Wrapping ----

  /** Where a line of at most `max` characters ends and where the next begins: at the last space, or hard. */
  function Break(s: string, max: nat): (b: (int, int))
    requires max < |s|
    ensures if ' ' in s[..max] then 0 <= b.0 < max && s[b.0] == ' ' && b.1 == b.0 + 1 && ' ' !in s[b.1..max]
            else b == (max, max)
  {
    var p := LastSpace(s[..max]);
    if p.Some? then (p.value, p.value + 1) else (max, max)
  }

  /** `lines` spell `s` with at most one space left out between neighbours. */
  ghost predicate Spells(lines: seq<string>, s: string)
    decreases |lines|
  {
    if lines == [] then s == ""
    else if |lines| == 1 then s == lines[0]
    else
      && lines[0] <= s
      && var rest := s[|lines[0]|..];
         Spells(lines[1..], rest) || (rest != "" && rest[0] == ' ' && Spells(lines[1..], rest[1..]))
  }

  predicate Fits(line: string, max: nat) {
    0 < |line| <= max
  }

  lemma SpellsMore(line: string, gap: string, rest: seq<string>, tail: string)
    requires gap == "" || gap == " "
    requires rest != [] && Spells(rest, tail)
    ensures Spells([line] + rest, line + gap + tail)
  {
    var s := line + gap + tail;
    assert ([line] + rest)[1..] == rest && s[|line|..] == gap + tail;
    if gap == "" {
      assert gap + tail == tail;
    } else {
      assert (gap + tail)[1..] == tail;
    }
  }

  /** `wrap_text`, one character being one `char`. */
  function Wrap(s: string, max: nat): (lines: seq<string>)
    decreases |s|
  {
    if |s| <= max then if s == "" then [] else [s]
    else
      var (end, next) := Break(s, max);
      if end == 0 then [s] else [s[..end]] + Wrap(s[next..], max)
  }

  method WrapText(text: string, max: nat) returns (lines: seq<string>)
    ensures lines == Wrap(text, max)
  {
    lines := [];
    if |text| <= max {
      return if text == "" then [] else [text];
    }
    var remaining := text;
    while |remaining| > max
      invariant lines + Wrap(remaining, max) == Wrap(text, max)
      decreases |remaining|
    {
      var (end, next) := Break(remaining, max);
      if end == 0 {
        break;
      }
      assert lines + ([remaining[..end]] + Wrap(remaining[next..], max)) == lines + [remaining[..end]] + Wrap(remaining[next..], max);
      lines := lines + [remaining[..end]];
      remaining := remaining[next..];
    }
    assert lines + [] == lines;
    if remaining != "" {
      lines := lines + [remaining];
    }
  }

  ghost predicate LinesFit(lines: seq<string>, max: nat) {
    forall i | 0 <= i < |lines| ::
      Fits(lines[i], max) || (i == |lines| - 1 && lines[i] != "" && lines[i][0] == ' ')
  }

  /** A break takes a non-empty line off and at most one space with it; it cannot when the text begins with the only space. */
  lemma BreakTakes(s: string, max: nat) returns (gap: string)
    requires 1 <= max < |s|
    ensures var (end, next) := Break(s, max);
      && 0 <= end <= next <= end + 1 && next < |s| && (gap == "" || gap == " ")
      && (end == 0 ==> s[0] == ' ')
      && (0 < end ==> Fits(s[..end], max) && s == s[..end] + gap + s[next..])
  {
    var p := LastSpace(s[..max]);
    gap := if p.Some? then " " else "";
    if p.Some? {
      assert s[p.value] == s[..max][p.value] == ' ';
    }
  }

  lemma OneMoreFits(line: string, rest: seq<string>, max: nat)
    requires Fits(line, max) && LinesFit(rest, max) && rest != []
    ensures LinesFit([line] + rest, max)
  {
    var all := [line] + rest;
    forall i | 0 <= i < |all|
      ensures Fits(all[i], max) || (i == |all| - 1 && all[i] != "" && all[i][0] == ' ')
    {
      if 0 < i { assert all[i] == rest[i - 1]; }
    }
  }

  /** Wrapping loses at most one space per break, and only a last line that begins with a space can be too long. */
  lemma {:induction false} WrapIsFaithful(s: string, max: nat)
    requires 1 <= max
    ensures var lines := Wrap(s, max); Spells(lines, s) && (s != "" ==> lines != []) && LinesFit(lines, max)
    decreases |s|
  {
    if max < |s| {
      var gap := BreakTakes(s, max);
      hide Break;
      var (end, next) := Break(s, max);
      if end != 0 {
        var tail := s[next..];
        WrapIsFaithful(tail, max);
        hide Spells, LinesFit, Fits;
        SpellsMore(s[..end], gap, Wrap(tail, max), tail);
        OneMoreFits(s[..end], Wrap(tail, max), max);
      }
    }
  }

  lemma Longer(a: string, b: string)
    ensures a + b != "" <==> a != "" || b != ""
    ensures (a + b)[..|a|] == a && (a + b)[|a|..] == b
  {}

  /** A line ends at the last space before its limit. */
  lemma BreaksAtSpace(a: string, b: string, rest: string, max: nat)
    requires a != "" && ' ' !in b && |a| + 1 + |b| == max && rest != ""
    ensures Wrap(a + " " + b + rest, max) == [a] + Wrap(b + rest, max)
  {
    var s := a + " " + b + rest;
    assert s[..max] == a + " " + b;
    LastSpaceAt(a, b);
    assert s[..|a|] == a && s[|a| + 1..] == b + rest;
  }

  /** Without a space it is full, and when the only space comes first nothing is broken. */
  lemma BreaksInWord(a: string, rest: string, max: nat)
    requires ' ' !in a && rest != ""
    ensures |a| == max && a != "" ==> Wrap(a + rest, max) == [a] + Wrap(rest, max)
    ensures |a| + 1 == max ==> Wrap(" " + a + rest, max) == [" " + a + rest]
  {
    if |a| == max && a != "" {
      Longer(a, rest);
    }
    if |a| + 1 == max {
      var s := " " + a + rest;
      assert s[..max] == " " + a && "" + " " + a == " " + a;
      LastSpaceAt("", a);
    }
  }

  // ---- Cues ----

  datatype Cue = Cue(index: nat, start: nat, end: nat, lines: seq<string>)

  function Chunks(lines: seq<string>): seq<seq<string>> {
    if lines == [] then []
    else if |lines| <= SRT_MAX_LINES then [lines]
    else [lines[..SRT_MAX_LINES]] + Chunks(lines[SRT_MAX_LINES..])
  }

  /** A cue is held past its segment, cut short of the next one, and never shorter than half a second. */
  function CueEnd(segments: seq<Segment>, i: nat, start: nat): nat
    requires i < |segments|
  {
    var natural := segments[i].end + SRT_HOLD_MS;
    var end :=
      if i + 1 < |segments| then
        var limit := if 100 <= segments[i + 1].start then segments[i + 1].start - 100 else 0;
        if natural <= limit then natural else limit
      else natural;
    if start + 500 <= end then end else start + 500
  }

  function CueAt(segments: seq<Segment>, i: nat, ci: nat, index: nat, chunk: seq<string>): Cue
    requires i < |segments|
  {
    var start := segments[i].start + 100 * ci;
    Cue(index, start, CueEnd(segments, i, start), chunk)
  }

  function ChunksOf(segment: Segment): seq<seq<string>> {
    Chunks(Wrap(segment.text, SRT_LINE_LEN))
  }

  function SegmentCues(segments: seq<Segment>, i: nat, index: nat): seq<Cue>
    requires i < |segments|
  {
    var chunks := ChunksOf(segments[i]);
    seq(|chunks|, ci requires 0 <= ci < |chunks| => CueAt(segments, i, ci, index + ci, chunks[ci]))
  }

  /** The cues of the first `n` segments, numbered from 1. */
  function Cues(segments: seq<Segment>, n: nat): seq<Cue>
    requires n <= |segments|
  {
    if n == 0 then []
    else
      var before := Cues(segments, n - 1);
      before + SegmentCues(segments, n - 1, |before| + 1)
  }

  method WriteSrt(segments: seq<Segment>) returns (cues: seq<Cue>)
    ensures cues == Cues(segments, |segments|)
  {
    hide Wrap, Chunks, CueEnd;
    cues := [];
    var index := 1;
    for i := 0 to |segments|
      invariant cues == Cues(segments, i) && index == |cues| + 1
    {
      var lines := WrapText(segments[i].text, SRT_LINE_LEN);
      var chunks := Chunks(lines);
      ghost var before := cues;
      for ci := 0 to |chunks|
        invariant cues == before + SegmentCues(segments, i, |before| + 1)[..ci] && index == |cues| + 1
      {
        cues := cues + [CueAt(segments, i, ci, index, chunks[ci])];
        index := index + 1;
      }
    }
  }

  function Later(a: int, b: int): int {
    if a <= b then b else a
  }

  /** A cue lasts at least half a second and ends 100 ms before the next segment whenever there is room for that. */
  lemma CueTiming(segments: seq<Segment>, i: nat, start: nat)
    requires i < |segments|
    ensures start + 500 <= CueEnd(segments, i, start)
    ensures i + 1 < |segments| ==>
              (CueEnd(segments, i, start) + 100 <= segments[i + 1].start <==> start + 600 <= segments[i + 1].start)
    ensures var held, least := segments[i].end + 3000, start + 500;
      if i + 1 == |segments| || held + 100 <= segments[i + 1].start then CueEnd(segments, i, start) == Later(held, least)
      else CueEnd(segments, i, start) == Later(segments[i + 1].start - 100, least)
  {}

  lemma {:induction false} ChunksAreFull(lines: seq<string>)
    ensures Joined(Chunks(lines)) == lines
    ensures forall i | 0 <= i < |Chunks(lines)| :: 1 <= |Chunks(lines)[i]| <= 2 && (i + 1 < |Chunks(lines)| ==> |Chunks(lines)[i]| == 2)
  {
    if SRT_MAX_LINES < |lines| {
      ChunksAreFull(lines[SRT_MAX_LINES..]);
      assert Chunks(lines)[1..] == Chunks(lines[SRT_MAX_LINES..]);
      assert lines[..SRT_MAX_LINES] + lines[SRT_MAX_LINES..] == lines;
    } else if lines != [] {
      assert Chunks(lines) == [lines] && [lines][1..] == [] && lines + [] == lines;
    }
  }

  function Joined(chunks: seq<seq<string>>): seq<string> {
    if chunks == [] then [] else chunks[0] + Joined(chunks[1..])
  }

  /** Lines of at most 45 characters, but for one that begins with a space. */
  predicate Narrow(lines: seq<string>) {
    forall i | 0 <= i < |lines| :: |lines[i]| <= 45 || lines[i][0] == ' '
  }

  lemma {:induction false} ChunksAreNarrow(lines: seq<string>, k: nat)
    requires Narrow(lines) && k < |Chunks(lines)|
    ensures Narrow(Chunks(lines)[k])
  {
    if SRT_MAX_LINES < |lines| && 0 < k {
      ChunksAreNarrow(lines[SRT_MAX_LINES..], k - 1);
    }
  }

  lemma CueIsNarrow(segment: Segment, ci: nat)
    requires ci < |ChunksOf(segment)|
    ensures Narrow(ChunksOf(segment)[ci])
  {
    WrapIsFaithful(segment.text, 45);
    hide Wrap, Spells;
    ChunksAreNarrow(Wrap(segment.text, 45), ci);
  }

  /** A text that fits on a line is one cue. */
  lemma ShortTextIsOneCue(segment: Segment)
    requires 0 < |segment.text| <= 45
    ensures ChunksOf(segment) == [[segment.text]]
  {}

  /** Which segment and chunk a cue shows. */
  lemma {:induction false} CueShows(segments: seq<Segment>, n: nat, k: nat) returns (i: nat, ci: nat)
    requires n <= |segments| && k < |Cues(segments, n)|
    ensures i < n && ci < |ChunksOf(segments[i])|
    ensures Cues(segments, n)[k] == CueAt(segments, i, ci, k + 1, ChunksOf(segments[i])[ci])
  {
    hide ChunksOf, CueAt;
    var before := Cues(segments, n - 1);
    if k < |before| {
      i, ci := CueShows(segments, n - 1, k);
    } else {
      i, ci := n - 1, k - |before|;
    }
  }

  /**
   Cues are numbered from 1, show two lines or a last one, last at least half a second, and end 100 ms before
   the segment after theirs exactly when that starts at least 600 ms after the cue.
   */
  lemma CuesAreReadable(segments: seq<Segment>, k: nat) returns (i: nat, ci: nat)
    requires k < |Cues(segments, |segments|)|
    ensures i < |segments| && ci < |ChunksOf(segments[i])|
    ensures var c := Cues(segments, |segments|)[k];
      && c.index == k + 1 && c.start == segments[i].start + 100 * ci && c.lines == ChunksOf(segments[i])[ci]
      && c.start + 500 <= c.end && 1 <= |c.lines| <= 2 && (ci + 1 < |ChunksOf(segments[i])| ==> |c.lines| == 2) && Narrow(c.lines)
      && (i + 1 < |segments| ==> (c.end + 100 <= segments[i + 1].start <==> c.start + 600 <= segments[i + 1].start))
      && (c.end == if i + 1 == |segments| || segments[i].end + 3100 <= segments[i + 1].start
                   then Later(segments[i].end + 3000, c.start + 500) else Later(segments[i + 1].start - 100, c.start + 500))
  {
    i, ci := CueShows(segments, |segments|, k);
    CueIsNarrow(segments[i], ci);
    hide Cues, Wrap, CueEnd, Narrow;
    ChunksAreFull(Wrap(segments[i].text, SRT_LINE_LEN));
    CueTiming(segments, i, segments[i].start + 100 * ci);
  }
}
