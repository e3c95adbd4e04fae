/** Text as the languages of the portal, the gateway and the importer trim, join and number it. */
module Text {
  import Decimal

  datatype Language = JavaScript | Rust | Python

  /**
   What `trim` or `strip` removes: WhiteSpace and LineTerminator of ECMA-262, the Unicode White_Space
   property, or that property and the four ASCII separators.
   */
  predicate Space(l: Language, c: char) {
    var n := c as int;
    || 9 <= n <= 13 || n == 0x20 || n == 0xA0 || n == 0x1680 || 0x2000 <= n <= 0x200A
    || n == 0x2028 || n == 0x2029 || n == 0x202F || n == 0x205F || n == 0x3000
    || (l.JavaScript? && n == 0xFEFF)
    || (!l.JavaScript? && n == 0x85)
    || (l.Python? && 28 <= n && n <= 31)
  }

  /** JavaScript does not count U+0085 and counts the byte order mark; Python also counts the four separators. */
  lemma SpacesDiffer(c: char)
    ensures Space(JavaScript, c) <==> (Space(Rust, c) && c != '\U{0085}') || c == '\U{FEFF}'
    ensures Space(Python, c) <==> Space(Rust, c) || '\U{001C}' <= c <= '\U{001F}'
  {}

  function TrimStart(s: string, l: Language): (t: string)
    ensures |t| <= |s| && t == s[|s| - |t|..]
    ensures t != [] ==> !Space(l, t[0])
    ensures forall i | 0 <= i < |s| - |t| :: Space(l, s[i])
  {
    if s != [] && Space(l, s[0]) then TrimStart(s[1..], l) else s
  }

  function TrimEnd(s: string, l: Language): (t: string)
    ensures t <= s
    ensures t != [] ==> !Space(l, t[|t| - 1])
    ensures forall i | |t| <= i < |s| :: Space(l, s[i])
  {
    if s != [] && Space(l, s[|s| - 1]) then TrimEnd(s[..|s| - 1], l) else s
  }

  function Trim(s: string, l: Language): (t: string)
    ensures t != [] ==> !Space(l, t[0]) && !Space(l, t[|t| - 1])
  {
    TrimEnd(TrimStart(s, l), l)
  }

  function Join(parts: seq<string>, sep: char): string {
    if parts == [] then "" else if |parts| == 1 then parts[0] else parts[0] + ([sep] + Join(parts[1..], sep))
  }

  function Split(s: string, sep: char): (parts: seq<string>)
    ensures parts != []
  {
    SplitRest([], s, sep)
  }

  /** `part` is the part read so far. */
  function SplitRest(part: string, s: string, sep: char): (parts: seq<string>)
    ensures parts != []
    decreases |s|
  {
    if s == [] then [part]
    else if s[0] == sep then [part] + SplitRest([], s[1..], sep)
    else SplitRest(part + [s[0]], s[1..], sep)
  }

  lemma {:induction false} SplitJoined(part: string, a: string, b: string, sep: char)
    ensures SplitRest(part, a + ([sep] + b), sep) == SplitRest(part, a, sep) + Split(b, sep)
    decreases |a|
  {
    var s := a + ([sep] + b);
    if a == [] {
      assert s == [sep] + b && s[1..] == b;
    } else {
      assert s[1..] == a[1..] + ([sep] + b);
      if a[0] == sep {
        SplitJoined([], a[1..], b, sep);
      } else {
        SplitJoined(part + [a[0]], a[1..], b, sep);
      }
    }
  }

  lemma {:induction false} SplitWhole(part: string, s: string, sep: char)
    requires sep !in s
    ensures SplitRest(part, s, sep) == [part + s]
    decreases |s|
  {
    if s == [] {
      assert part + s == part;
    } else {
      SplitWhole(part + [s[0]], s[1..], sep);
      assert part + [s[0]] + s[1..] == part + s;
    }
  }

  /** Joined parts come apart again, in the same order. */
  lemma {:induction false} SplitInvertsJoin(parts: seq<string>, sep: char)
    requires parts != [] && forall i | 0 <= i < |parts| :: sep !in parts[i]
    ensures Split(Join(parts, sep), sep) == parts
  {
    hide SplitRest;
    SplitWhole([], parts[0], sep);
    assert [] + parts[0] == parts[0];
    if 1 < |parts| {
      SplitInvertsJoin(parts[1..], sep);
      SplitJoined([], parts[0], Join(parts[1..], sep), sep);
    }
  }

  predicate AllSpaces(s: string, l: Language) {
    forall i | 0 <= i < |s| :: Space(l, s[i])
  }

  lemma {:induction false} TrimStartStops(before: string, s: string, l: Language)
    requires AllSpaces(before, l) && (s != "" ==> !Space(l, s[0]))
    ensures TrimStart(before + s, l) == s
  {
    hide Space;
    if before == "" {
      assert before + s == s;
    } else {
      assert (before + s)[1..] == before[1..] + s;
      TrimStartStops(before[1..], s, l);
    }
  }

  lemma {:induction false} TrimEndStops(s: string, after: string, l: Language)
    requires AllSpaces(after, l) && (s != "" ==> !Space(l, s[|s| - 1]))
    ensures TrimEnd(s + after, l) == s
    decreases |after|
  {
    hide Space;
    var n := |after| - 1;
    if after == "" {
      assert s + after == s;
    } else {
      assert (s + after)[..|s| + n] == s + after[..n];
      TrimEndStops(s, after[..n], l);
    }
  }

  /** Exactly the white space around the text goes. */
  lemma TrimPadded(before: string, s: string, after: string, l: Language)
    requires AllSpaces(before, l) && AllSpaces(after, l)
    requires s != "" ==> !Space(l, s[0]) && !Space(l, s[|s| - 1])
    ensures Trim(before + (s + after), l) == s
  {
    hide Space;
    if s == "" {
      assert before + (s + after) == (before + after) + "";
      TrimStartStops(before + after, "", l);
      TrimEndStops("", "", l);
    } else {
      TrimStartStops(before, s + after, l);
      TrimEndStops(s, after, l);
    }
  }

  lemma {:induction false} TrimStartSkips(before: string, s: string, l: Language)
    requires AllSpaces(before, l)
    ensures TrimStart(before + s, l) == TrimStart(s, l)
  {
    hide Space;
    if before == "" {
      assert before + s == s;
    } else {
      assert (before + s)[1..] == before[1..] + s;
      TrimStartSkips(before[1..], s, l);
    }
  }

  lemma {:induction false} TrimEndSkips(s: string, after: string, l: Language)
    requires AllSpaces(after, l)
    ensures TrimEnd(s + after, l) == TrimEnd(s, l)
    decreases |after|
  {
    hide Space;
    var n := |after| - 1;
    if after == "" {
      assert s + after == s;
    } else {
      assert (s + after)[..|s| + n] == s + after[..n];
      TrimEndSkips(s, after[..n], l);
    }
  }

  /** White space before a text does not matter to trimming it. */
  lemma TrimSkipsBefore(before: string, s: string, l: Language)
    requires AllSpaces(before, l)
    ensures Trim(before + s, l) == Trim(s, l)
  {
    hide Space, TrimStart, TrimEnd, AllSpaces;
    TrimStartSkips(before, s, l);
  }

  lemma SpacesStart(s: string, l: Language) returns (before: string)
    ensures s == before + TrimStart(s, l) && AllSpaces(before, l)
  {
    hide Space;
    var t := TrimStart(s, l);
    before := s[..|s| - |t|];
    hide TrimStart;
  }

  /** Nor does white space after it. */
  lemma TrimSkipsAfter(s: string, after: string, l: Language)
    requires AllSpaces(after, l)
    ensures Trim(s + after, l) == Trim(s, l)
  {
    var before := SpacesStart(s, l);
    var t := TrimStart(s, l);
    hide Space, TrimStart, TrimEnd, AllSpaces;
    assert s + after == before + (t + after);
    if t == "" {
      assert t + after == after == after + "";
      TrimStartSkips(before, after, l);
      TrimStartStops(after, "", l);
    } else {
      TrimStartStops(before, t + after, l);
      TrimEndSkips(t, after, l);
    }
  }

  lemma SpacesEnd(s: string, l: Language) returns (after: string)
    ensures s == TrimEnd(s, l) + after && AllSpaces(after, l)
  {
    hide Space;
    var t := TrimEnd(s, l);
    after := s[|t|..];
    hide TrimEnd;
  }

  lemma TrimCuts(s: string, l: Language) returns (before: string, after: string)
    ensures s == before + (Trim(s, l) + after) && AllSpaces(before, l) && AllSpaces(after, l)
  {
    before := SpacesStart(s, l);
    after := SpacesEnd(TrimStart(s, l), l);
    hide Space, TrimStart, TrimEnd, AllSpaces;
  }

  /** A number in decimal. */
  function Str(n: nat): string {
    var d := Decimal.Digits(n);
    seq(|d|, k requires 0 <= k < |d| => d[k] as char)
  }

  lemma StrUnfolds(n: nat)
    ensures var last := ('0' as int + n % 10) as char;
      Str(n) == if n < 10 then [last] else Str(n / 10) + [last]
  {
    var d := Decimal.Digits(n);
    if 10 <= n {
      assert d == Decimal.Digits(n / 10) + [48 + n % 10];
    }
  }

  lemma StrInjective(i: nat, j: nat)
    requires Str(i) == Str(j)
    ensures i == j
  {
    var a, b := Decimal.Digits(i), Decimal.Digits(j);
    assert |a| == |Str(i)| == |b|;
    assert forall k | 0 <= k < |a| :: Str(i)[k] == a[k] as char && Str(j)[k] == b[k] as char;
    assert a == b;
    Decimal.ValueOfDigits(i);
    Decimal.ValueOfDigits(j);
  }

  lemma StrHasDigits(n: nat, c: char)
    requires c in Str(n)
    ensures '0' <= c <= '9'
  {
    var d := Decimal.Digits(n);
    var k :| 0 <= k < |d| && Str(n)[k] == c;
    assert Decimal.IsDigit(d[k]);
  }
}
