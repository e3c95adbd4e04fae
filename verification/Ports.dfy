/** The client's port lists and the gateway's port check, two interpreters of one notation. */
module Ports {
  import opened Wrappers
  import opened Bytes
  import opened Text

  const MAX_PORT: nat := 65535

  // ---- The notation ----

  predicate AllDigits(s: string) {
    forall i | 0 <= i < |s| :: '0' <= s[i] <= '9'
  }

  function Value(s: string): nat
    requires AllDigits(s)
  {
    if s == [] then 0 else 10 * Value(s[..|s| - 1]) + (s[|s| - 1] as int - '0' as int)
  }

  /** `str::parse::<u16>` */
  function ParseU16(s: string): (p: Option<nat>)
    ensures p.Some? ==> p.value <= MAX_PORT
  {
    var digits := if 2 <= |s| && s[0] == '+' then s[1..] else s;
    if digits != [] && AllDigits(digits) && Value(digits) <= MAX_PORT then Some(Value(digits)) else None
  }

  /** `split_once('-')` */
  function SplitDash(s: string): Option<(string, string)> {
    var i := IndexOf(s, '-');
    if i < |s| then Some((s[..i], s[i + 1..])) else None
  }

  // ---- The client's interpreter ----

  function Range(lo: nat, hi: nat): seq<nat>
    requires lo <= hi + 1
  {
    seq(hi + 1 - lo, i => lo + i)
  }

  /** What one part of the list contributes. */
  function PartPorts(part: string): seq<nat> {
    var part := Trim(part, Rust);
    if part == "" then []
    else
      match SplitDash(part)
      case Some((start, end)) =>
        var s, e := ParseU16(Trim(start, Rust)), ParseU16(Trim(end, Rust));
        if s.Some? && e.Some? && s.value <= e.value then Range(s.value, e.value) else []
      case None =>
        var p := ParseU16(part);
        if p.Some? then [p.value] else []
  }

  function AllPorts(parts: seq<string>): seq<nat> {
    if parts == [] then [] else PartPorts(parts[0]) + AllPorts(parts[1..])
  }

  function PortsOf(spec: string): seq<nat> {
    AllPorts(Split(spec, ','))
  }

  lemma {:induction false} AllPortsConcat(a: seq<string>, b: seq<string>)
    ensures AllPorts(a + b) == AllPorts(a) + AllPorts(b)
  {
    hide PartPorts;
    if a == [] {
      assert a + b == b;
    } else {
      assert (a + b)[1..] == a[1..] + b;
      AllPortsConcat(a[1..], b);
    }
  }

  /** `parse_ports`: parts that are not a port or a range are passed over. */
  method ParsePorts(spec: string) returns (ports: seq<nat>)
    ensures ports == PortsOf(spec)
  {
    hide PartPorts, Split;
    ports := [];
    var parts := Split(spec, ',');
    for i := 0 to |parts|
      invariant ports == AllPorts(parts[..i])
    {
      var more := ParsePart(parts[i]);
      ports := ports + more;
      assert parts[..i + 1] == parts[..i] + [parts[i]];
      AllPortsConcat(parts[..i], [parts[i]]);
      assert AllPorts([parts[i]]) == more + AllPorts([]);
    }
    assert parts[..|parts|] == parts;
  }

  method ParsePart(raw: string) returns (ports: seq<nat>)
    ensures ports == PartPorts(raw)
  {
    hide Trim, SplitDash, ParseU16;
    ports := [];
    var part := Trim(raw, Rust);
    if part == "" {
      return;
    }
    var dash := SplitDash(part);
    if dash.Some? {
      var s, e := ParseU16(Trim(dash.value.0, Rust)), ParseU16(Trim(dash.value.1, Rust));
      if s.Some? && e.Some? && s.value <= e.value {
        for p := s.value to e.value + 1
          invariant ports == Range(s.value, e.value)[..p - s.value]
        {
          ports := ports + [p];
        }
      }
    } else {
      var p := ParseU16(part);
      if p.Some? {
        ports := [p.value];
      }
    }
  }

  // ---- The gateway's interpreter ----

  predicate PartAllows(part: string, port: nat) {
    var part := Trim(part, Rust);
    part != "" &&
    match SplitDash(part)
    case Some((start, end)) =>
      var s, e := ParseU16(Trim(start, Rust)), ParseU16(Trim(end, Rust));
      s.Some? && e.Some? && s.value <= port && port <= e.value
    case None => ParseU16(part) == Some(port)
  }

  predicate PortInSpec(spec: string, port: nat) {
    exists i | 0 <= i < |Split(spec, ',')| :: PartAllows(Split(spec, ',')[i], port)
  }

  /** `port_in_spec` */
  method CheckPort(spec: string, port: nat) returns (ok: bool)
    ensures ok <==> PortInSpec(spec, port)
  {
    hide PartAllows;
    var parts := Split(spec, ',');
    for i := 0 to |parts|
      invariant forall j | 0 <= j < i :: !PartAllows(parts[j], port)
    {
      var allows := CheckPart(parts[i], port);
      if allows {
        return true;
      }
    }
    return false;
  }

  method CheckPart(raw: string, port: nat) returns (ok: bool)
    ensures ok <==> PartAllows(raw, port)
  {
    hide Trim, SplitDash, ParseU16;
    var part := Trim(raw, Rust);
    if part == "" {
      return false;
    }
    var dash := SplitDash(part);
    if dash.Some? {
      var s, e := ParseU16(Trim(dash.value.0, Rust)), ParseU16(Trim(dash.value.1, Rust));
      if s.Some? && e.Some? {
        if s.value <= port && port <= e.value {
          return true;
        }
      }
    } else {
      var p := ParseU16(part);
      if p.Some? && p.value == port {
        return true;
      }
    }
    return false;
  }

  // ---- Agreement ----

  lemma RangeHas(lo: nat, hi: nat, port: nat)
    requires lo <= hi
    ensures port in Range(lo, hi) <==> lo <= port <= hi
  {
    if lo <= port <= hi {
      assert Range(lo, hi)[port - lo] == port;
    }
  }

  lemma PartsAgree(part: string, port: nat)
    ensures port in PartPorts(part) <==> PartAllows(part, port)
  {
    hide Trim, ParseU16, Range;
    var trimmed := Trim(part, Rust);
    var dash := SplitDash(trimmed);
    hide SplitDash;
    if trimmed != "" && dash.Some? {
      var s, e := ParseU16(Trim(dash.value.0, Rust)), ParseU16(Trim(dash.value.1, Rust));
      if s.Some? && e.Some? && s.value <= e.value {
        RangeHas(s.value, e.value, port);
      }
    }
  }

  lemma {:induction false} ListsAgree(parts: seq<string>, port: nat)
    ensures port in AllPorts(parts) <==> exists i | 0 <= i < |parts| :: PartAllows(parts[i], port)
  {
    hide PartPorts, PartAllows;
    if parts != [] {
      PartsAgree(parts[0], port);
      ListsAgree(parts[1..], port);
      assert parts == [parts[0]] + parts[1..];
      if i :| 0 <= i < |parts| && PartAllows(parts[i], port) {
        if 0 < i { assert parts[1..][i - 1] == parts[i]; }
      }
      if i :| 0 <= i < |parts[1..]| && PartAllows(parts[1..][i], port) {
        assert parts[i + 1] == parts[1..][i];
      }
    }
  }

  /** The client opens exactly the ports the gateway lets through, for every text. */
  lemma InterpretersAgree(spec: string, port: nat)
    ensures port in PortsOf(spec) <==> PortInSpec(spec, port)
  {
    ListsAgree(Split(spec, ','), port);
  }

  // ---- Joined rows ----

  function RowPorts(rows: seq<string>): seq<nat> {
    if rows == [] then [] else PortsOf(rows[0]) + RowPorts(rows[1..])
  }

  /** A list joined from rows reads as the rows one after the other. */
  lemma {:induction false} JoinedReadsAsRows(rows: seq<string>)
    ensures PortsOf(Join(rows, ',')) == RowPorts(rows)
  {
    if rows == [] {
      assert Split("", ',') == [""] && Trim("", Rust) == "";
      assert AllPorts([""]) == PartPorts("") + AllPorts([]);
    } else if |rows| == 1 {
      assert RowPorts(rows[1..]) == [];
    } else {
      hide AllPorts, SplitRest;
      SplitJoined([], rows[0], Join(rows[1..], ','), ',');
      AllPortsConcat(Split(rows[0], ','), Split(Join(rows[1..], ','), ','));
      JoinedReadsAsRows(rows[1..]);
    }
  }

  /** The flattening loop of the tunnel request. */
  method FlattenRows(rows: seq<string>) returns (flat: seq<nat>)
    ensures flat == PortsOf(Join(rows, ','))
  {
    flat := [];
    hide PortsOf;
    for i := 0 to |rows|
      invariant RowPorts(rows) == flat + RowPorts(rows[i..])
    {
      assert rows[i..][1..] == rows[i + 1..];
      var ports := ParsePorts(rows[i]);
      Assoc(flat, ports, RowPorts(rows[i + 1..]));
      flat := flat + ports;
    }
    JoinedReadsAsRows(rows);
  }

  /** A token for the joined rows authorises exactly the union of the rows' ports. */
  lemma JoinAuthorisesUnion(rows: seq<string>, port: nat)
    ensures PortInSpec(Join(rows, ','), port) <==> exists i | 0 <= i < |rows| :: port in PortsOf(rows[i])
  {
    hide PortsOf, PortInSpec, Join;
    InterpretersAgree(Join(rows, ','), port);
    JoinedReadsAsRows(rows);
    RowPortsHas(rows, port);
  }

  lemma {:induction false} RowPortsHas(rows: seq<string>, port: nat)
    ensures port in RowPorts(rows) <==> exists i | 0 <= i < |rows| :: port in PortsOf(rows[i])
  {
    hide PortsOf;
    if rows != [] {
      RowPortsHas(rows[1..], port);
      if i :| 0 <= i < |rows| && port in PortsOf(rows[i]) {
        if 0 < i { assert rows[1..][i - 1] == rows[i]; }
      }
      if i :| 0 <= i < |rows[1..]| && port in PortsOf(rows[1..][i]) {
        assert rows[i + 1] == rows[1..][i];
      }
    }
  }

  // ---- What the notation means ----

  function Zeros(k: nat): string {
    seq(k, _ => '0')
  }

  lemma ValueSnoc(s: string, c: char)
    requires AllDigits(s) && '0' <= c <= '9'
    ensures AllDigits(s + [c]) && Value(s + [c]) == 10 * Value(s) + (c as int - '0' as int)
  {
    assert (s + [c])[..|s|] == s;
  }

  lemma {:induction false} StrReads(n: nat)
    ensures AllDigits(Str(n)) && Value(Str(n)) == n && Str(n) != ""
  {
    StrUnfolds(n);
    assert Value("") == 0;
    hide Value, AllDigits, Str;
    var last := ('0' as int + n % 10) as char;
    if n < 10 {
      AllDigitsEmpty();
      ValueSnoc("", last);
      assert "" + [last] == Str(n);
    } else {
      StrReads(n / 10);
      ValueSnoc(Str(n / 10), last);
    }
  }

  lemma AllDigitsEmpty()
    ensures AllDigits("")
  {}

  lemma {:induction false} ZerosAreZero(k: nat)
    ensures AllDigits(Zeros(k)) && Value(Zeros(k)) == 0
  {
    if 0 < k {
      ZerosAreZero(k - 1);
      ValueSnoc(Zeros(k - 1), '0');
      hide Value;
      assert Zeros(k) == Zeros(k - 1) + ['0'];
    }
  }

  lemma {:induction false} ZerosReads(k: nat, s: string)
    requires AllDigits(s)
    ensures AllDigits(Zeros(k) + s) && Value(Zeros(k) + s) == Value(s)
    decreases |s|
  {
    if s == "" {
      ZerosAreZero(k);
      assert Zeros(k) + s == Zeros(k);
    } else {
      var n := |s| - 1;
      ZerosReads(k, s[..n]);
      assert '0' <= s[n] <= '9';
      hide Value, AllDigits, Zeros;
      ValueSnoc(Zeros(k) + s[..n], s[n]);
      ValueSnoc(s[..n], s[n]);
      assert s[..n] + [s[n]] == s;
      assert Zeros(k) + s[..n] + [s[n]] == Zeros(k) + s;
    }
  }

  lemma OneMoreDigit(k: nat, v: nat, c: char) returns (j: nat)
    requires '0' <= c <= '9'
    ensures Zeros(k) + Str(v) + [c] == Zeros(j) + Str(10 * v + (c as int - '0' as int))
  {
    StrUnfolds(10 * v + (c as int - '0' as int));
    StrUnfolds(v);
    hide Str;
    if v == 0 {
      j := k + 1;
      assert Str(0) == "0" && Zeros(k) + "0" == Zeros(k + 1);
    } else {
      j := k;
    }
  }

  /** Every numeral is the decimal text of its value behind some zeros. */
  lemma {:induction false} NumeralIs(s: string) returns (k: nat)
    requires s != "" && AllDigits(s)
    ensures s == Zeros(k) + Str(Value(s))
  {
    var n := |s| - 1;
    var front, c := s[..n], s[n];
    assert s == front + [c];
    ValueSnoc(front, c);
    if n == 0 {
      k := 0;
      assert front == "" && Value(front) == 0;
      StrUnfolds(Value(s));
      hide Value, Str;
      assert Zeros(0) + [c] == [c];
    } else {
      k := NumeralIs(front);
      hide Value, Str, Zeros;
      k := OneMoreDigit(k, Value(front), c);
    }
  }

  /** A decimal numeral of at most 65535, with or without a plus and leading zeros, and nothing else. */
  predicate Numeral(s: string, n: nat, plus: bool, k: nat) {
    s == (if plus then "+" else "") + (Zeros(k) + Str(n))
  }

  lemma NumeralParses(s: string, n: nat, plus: bool, k: nat)
    requires Numeral(s, n, plus, k)
    ensures ParseU16(s) == if n <= 65535 then Some(n) else None
  {
    StrReads(n);
    ZerosReads(k, Str(n));
    NumeralIsUnsigned(k, n);
    var rest := Zeros(k) + Str(n);
    hide Value, Str, AllDigits, Zeros;
    if plus {
      assert s == "+" + rest && s[1..] == rest;
    } else {
      assert s == "" + rest == rest;
    }
  }

  lemma ParsedIsNumeral(s: string, n: nat)
    requires ParseU16(s) == Some(n)
    ensures exists plus, k: nat :: Numeral(s, n, plus, k)
  {
    var plus := 2 <= |s| && s[0] == '+';
    var digits := if plus then s[1..] else s;
    assert digits != [] && AllDigits(digits) && Value(digits) == n;
    hide *;
    var k := NumeralIs(digits);
    WithPlus(s, digits, plus);
    NumeralHolds(s, n, plus, k);
  }

  lemma WithPlus(s: string, digits: string, plus: bool)
    requires plus == (2 <= |s| && s[0] == '+') && digits == if plus then s[1..] else s
    ensures s == (if plus then "+" else "") + digits
  {}

  lemma NumeralHolds(s: string, n: nat, plus: bool, k: nat)
    requires s == (if plus then "+" else "") + (Zeros(k) + Str(n))
    ensures Numeral(s, n, plus, k)
  {
    hide Zeros, Str;
  }

  lemma ParseU16Is(s: string, n: nat)
    ensures ParseU16(s) == Some(n) <==> n <= 65535 && exists plus, k: nat :: Numeral(s, n, plus, k)
  {
    if ParseU16(s) == Some(n) {
      ParsedIsNumeral(s, n);
    }
    hide ParseU16, Numeral;
    if plus, k: nat :| n <= 65535 && Numeral(s, n, plus, k) {
      NumeralParses(s, n, plus, k);
    }
  }

  lemma NumeralIsUnsigned(k: nat, n: nat)
    ensures (Zeros(k) + Str(n))[0] != '+'
  {
    StrReads(n);
  }

  /** The text is the numeral of `n`, white space around it. */
  predicate Reads(s: string, n: nat) {
    ParseU16(Trim(s, Rust)) == Some(n)
  }

  /** The text before the first dash and the text after it read as the ends of a range. */
  predicate RangeReads(raw: string, a: string, b: string, lo: nat, hi: nat) {
    raw == a + (['-'] + b) && '-' !in a && Reads(a, lo) && Reads(b, hi)
  }

  lemma DashIsNoNumeral(s: string)
    requires '-' in s
    ensures ParseU16(s) == None
  {
    hide Value;
    var i :| 0 <= i < |s| && s[i] == '-';
    if 2 <= |s| && s[0] == '+' { assert s[1..][i - 1] == '-'; }
  }

  lemma FirstDash(a: string, b: string)
    requires '-' !in a
    ensures SplitDash(a + (['-'] + b)) == Some((a, b))
  {
    IndexOfIs(a, '-', b);
    var s := a + (['-'] + b);
    assert s[..|a|] == a && s[|a| + 1..] == b;
  }

  /** One part allows a port in two ways only: it is that port, or a range around it. */
  lemma PartAllowsIff(raw: string, port: nat)
    ensures PartAllows(raw, port) <==>
            Reads(raw, port) || exists a, b, lo: nat, hi: nat :: RangeReads(raw, a, b, lo, hi) && lo <= port <= hi
  {
    var before, after := TrimCuts(raw, Rust);
    var t := Trim(raw, Rust);
    assert '-' !in before && '-' !in after;
    if '-' in t {
      var x, a, y, b := DashParts(before, t, after);
      DashIsNoNumeral(t);
      hide Trim, ParseU16, SplitDash, AllSpaces;
      DashInside(raw, x, a, y, b, port);
    } else {
      NoDashInside(raw, before, t, after, port);
    }
  }

  lemma NoDashInside(raw: string, before: string, t: string, after: string, port: nat)
    requires raw == before + (t + after) && t == Trim(raw, Rust) && '-' !in before && '-' !in t && '-' !in after
    ensures PartAllows(raw, port) <==> Reads(raw, port)
    ensures forall a, b, lo: nat, hi: nat :: !RangeReads(raw, a, b, lo, hi)
  {
    IndexAbsent(t, '-');
    assert ParseU16("") == None;
    hide Trim, ParseU16;
    forall a, b, lo: nat, hi: nat
      ensures !RangeReads(raw, a, b, lo, hi)
    {
      assert (a + (['-'] + b))[|a|] == '-';
    }
  }

  lemma CutAt(t: string, i: nat)
    requires i < |t| && t[i] == '-'
    ensures t == t[..i] + (['-'] + t[i + 1..])
  {}

  lemma Regroup(before: string, x: string, dashed: string, after: string)
    ensures before + ((x + dashed) + after) == (before + x) + (dashed + after)
  {}

  lemma DashParts(before: string, t: string, after: string) returns (x: string, a: string, y: string, b: string)
    requires AllSpaces(before, Rust) && AllSpaces(after, Rust) && '-' in t && '-' !in before
    ensures SplitDash(t) == Some((x, y)) && '-' !in a && Trim(a, Rust) == Trim(x, Rust) && Trim(b, Rust) == Trim(y, Rust)
    ensures before + (t + after) == a + (['-'] + b)
  {
    hide *;
    var i := DashAt(t);
    x, y := t[..i], t[i + 1..];
    a, b := before + x, y + after;
    TrimSkipsBefore(before, x, Rust);
    TrimSkipsAfter(y, after, Rust);
    CutAt(t, i);
    FirstDash(x, y);
    Regroup(before, x, ['-'] + y, after);
    Assoc(['-'], y, after);
  }

  lemma OneCut(raw: string, a: string, b: string, a': string, b': string)
    requires raw == a + (['-'] + b) == a' + (['-'] + b') && '-' !in a && '-' !in a'
    ensures a' == a && b' == b
  {
    FirstDash(a, b);
    FirstDash(a', b');
    hide SplitDash;
  }

  lemma RangeIs(raw: string, a: string, b: string, a': string, b': string, lo: nat, hi: nat)
    requires raw == a + (['-'] + b) && '-' !in a
    ensures RangeReads(raw, a', b', lo, hi) <==> a' == a && b' == b && Reads(a, lo) && Reads(b, hi)
  {
    hide Reads;
    if raw == a' + (['-'] + b') && '-' !in a' { OneCut(raw, a, b, a', b'); }
  }

  lemma DashInside(raw: string, x: string, a: string, y: string, b: string, port: nat)
    requires SplitDash(Trim(raw, Rust)) == Some((x, y)) && Trim(raw, Rust) != ""
    requires raw == a + (['-'] + b) && '-' !in a && Trim(a, Rust) == Trim(x, Rust) && Trim(b, Rust) == Trim(y, Rust)
    ensures PartAllows(raw, port) <==>
            exists a, b, lo: nat, hi: nat :: RangeReads(raw, a, b, lo, hi) && lo <= port <= hi
  {
    hide Trim, ParseU16, SplitDash, RangeReads;
    var lo, hi := ParseU16(Trim(x, Rust)), ParseU16(Trim(y, Rust));
    if PartAllows(raw, port) {
      RangeIs(raw, a, b, a, b, lo.value, hi.value);
    }
    if a', b', l: nat, h: nat :| RangeReads(raw, a', b', l, h) && l <= port <= h {
      RangeIs(raw, a, b, a', b', l, h);
    }
  }

  lemma {:induction false} DashAt(s: string) returns (i: nat)
    requires '-' in s
    ensures i < |s| && s[i] == '-' && '-' !in s[..i]
  {
    if s[0] == '-' {
      i := 0;
    } else {
      i := DashAt(s[1..]);
      i := i + 1;
      assert s[..i] == [s[0]] + s[1..][..i - 1];
    }
  }

  /** One entry of a list: a port, or the ports from one to another. */
  datatype Item = Single(port: nat) | Span(first: nat, last: nat) {
    predicate Covers(p: nat) {
      match this
      case Single(port) => p == port <= 65535
      case Span(first, last) => first <= p <= last <= 65535
    }
  }

  function Written(item: Item): string {
    match item
    case Single(port) => Str(port)
    case Span(first, last) => Str(first) + (['-'] + Str(last))
  }

  lemma NumeralText(n: nat)
    ensures Str(n) != "" && forall i | 0 <= i < |Str(n)| :: '0' <= Str(n)[i] <= '9'
  {
    StrReads(n);
  }

  lemma StrParses(n: nat)
    ensures ParseU16(Str(n)) == if n <= 65535 then Some(n) else None
    ensures Trim(Str(n), Rust) == Str(n)
  {
    StrReads(n);
    NumeralText(n);
    hide Str, Value;
    TrimPadded("", Str(n), "", Rust);
    assert "" + (Str(n) + "") == Str(n);
  }

  lemma WrittenEnds(item: Item)
    ensures var s := Written(item); s != "" && !Space(Rust, s[0]) && !Space(Rust, s[|s| - 1])
  {
    var first, last := if item.Single? then item.port else item.first, if item.Single? then item.port else item.last;
    NumeralText(first);
    NumeralText(last);
    hide Str;
    var s := Written(item);
    assert s[0] == Str(first)[0] && s[|s| - 1] == Str(last)[|Str(last)| - 1];
  }

  /** Trimmed, a written entry is itself, and its ends are the numerals it was written from. */
  lemma WrittenParts(item: Item, before: string, after: string)
    requires AllSpaces(before, Rust) && AllSpaces(after, Rust)
    ensures Trim(before + (Written(item) + after), Rust) == Written(item) != ""
    ensures SplitDash(Written(item)) == if item.Single? then None else Some((Str(item.first), Str(item.last)))
  {
    WrittenEnds(item);
    if item.Single? { NoDash(item.port); } else { DashSplits(item.first, item.last); }
    hide Str, Trim, SplitDash, Space, AllSpaces;
    TrimPadded(before, Written(item), after, Rust);
  }

  /** A written entry, whatever white space is around it, allows the ports it covers and no other. */
  lemma ItemReads(item: Item, before: string, after: string, port: nat)
    requires AllSpaces(before, Rust) && AllSpaces(after, Rust)
    ensures PartAllows(before + (Written(item) + after), port) <==> item.Covers(port)
  {
    WrittenParts(item, before, after);
    hide Trim, ParseU16, SplitDash, AllSpaces, PartAllows;
    var raw := before + (Written(item) + after);
    match item {
      case Single(p) => SingleAllows(raw, p, port);
      case Span(first, last) => SpanAllows(raw, first, last, port);
    }
  }

  lemma SingleAllows(raw: string, p: nat, port: nat)
    requires Trim(raw, Rust) == Str(p) && SplitDash(Str(p)) == None
    ensures PartAllows(raw, port) <==> p == port <= 65535
  {
    StrParses(p);
    NumeralText(p);
    hide Str, Trim, ParseU16, SplitDash;
  }

  lemma SpanAllows(raw: string, first: nat, last: nat, port: nat)
    requires Trim(raw, Rust) != "" && SplitDash(Trim(raw, Rust)) == Some((Str(first), Str(last)))
    ensures PartAllows(raw, port) <==> first <= port <= last <= 65535
  {
    StrParses(first);
    StrParses(last);
    hide Str, Trim, ParseU16, SplitDash;
  }

  /** And the client lists exactly these, in order. */
  lemma ItemLists(item: Item, before: string, after: string)
    requires AllSpaces(before, Rust) && AllSpaces(after, Rust)
    ensures var ports := PartPorts(before + (Written(item) + after));
      match item
      case Single(p) => ports == if p <= 65535 then [p] else []
      case Span(first, last) =>
        if first <= last <= 65535 then |ports| == last - first + 1 && forall i | 0 <= i < |ports| :: ports[i] == first + i
        else ports == []
  {
    WrittenParts(item, before, after);
    hide Trim, ParseU16, SplitDash, AllSpaces, Range, PartPorts;
    var raw := before + (Written(item) + after);
    match item {
      case Single(p) => SingleLists(raw, p);
      case Span(first, last) =>
        SpanLists(raw, first, last);
        if first <= last { RangeIsRange(first, last); }
    }
  }

  lemma RangeIsRange(first: nat, last: nat)
    requires first <= last
    ensures var ports := Range(first, last); |ports| == last - first + 1 && forall i | 0 <= i < |ports| :: ports[i] == first + i
  {}

  lemma SingleLists(raw: string, p: nat)
    requires Trim(raw, Rust) == Str(p) && SplitDash(Str(p)) == None
    ensures PartPorts(raw) == if p <= 65535 then [p] else []
  {
    StrParses(p);
    NumeralText(p);
    hide Str, Trim, ParseU16, SplitDash;
  }

  lemma SpanLists(raw: string, first: nat, last: nat)
    requires Trim(raw, Rust) != "" && SplitDash(Trim(raw, Rust)) == Some((Str(first), Str(last)))
    ensures PartPorts(raw) == if first <= last <= 65535 then Range(first, last) else []
  {
    StrParses(first);
    StrParses(last);
    hide Str, Trim, ParseU16, SplitDash, Range;
  }

  lemma NoDash(p: nat)
    ensures SplitDash(Str(p)) == None
  {
    NumeralText(p);
    hide Str;
    IndexAbsent(Str(p), '-');
  }

  lemma {:induction false} IndexAbsent(s: string, x: char)
    requires x !in s
    ensures IndexOf(s, x) == |s|
  {
    if s != "" {
      IndexAbsent(s[1..], x);
    }
  }

  lemma DashSplits(first: nat, last: nat)
    ensures SplitDash(Str(first) + (['-'] + Str(last))) == Some((Str(first), Str(last)))
  {
    NumeralText(first);
    hide Str;
    IndexOfIs(Str(first), '-', Str(last));
    var s := Str(first) + (['-'] + Str(last));
    assert s[..|Str(first)|] == Str(first) && s[|Str(first)| + 1..] == Str(last);
  }

  predicate Listed(items: seq<Item>, port: nat) {
    exists i | 0 <= i < |items| :: items[i].Covers(port)
  }

  lemma WrappedReads(text: string, item: Item, port: nat)
    requires Wraps(text, item)
    ensures ',' !in text && (PartAllows(text, port) <==> item.Covers(port))
  {
    hide PartAllows, Written, AllSpaces;
    var before, after :| text == before + (Written(item) + after) && AllSpaces(before, Rust) && AllSpaces(after, Rust);
    ItemReads(item, before, after, port);
    NoComma(item, before, after);
  }

  /** A written list, in both programs, means the ports its entries cover. */
  lemma WrittenListReads(items: seq<Item>, texts: seq<string>, port: nat)
    requires items != [] && |texts| == |items| && forall i | 0 <= i < |items| :: Wraps(texts[i], items[i])
    ensures PortInSpec(Join(texts, ','), port) <==> Listed(items, port)
    ensures port in PortsOf(Join(texts, ',')) <==> Listed(items, port)
  {
    forall i | 0 <= i < |items|
      ensures ',' !in texts[i] && (PartAllows(texts[i], port) <==> items[i].Covers(port))
    {
      WrappedReads(texts[i], items[i], port);
    }
    hide *;
    SplitInvertsJoin(texts, ',');
    InterpretersAgree(Join(texts, ','), port);
    AllowedIsListed(Join(texts, ','), items, texts, port);
  }

  lemma AllowedIsListed(spec: string, items: seq<Item>, texts: seq<string>, port: nat)
    requires Split(spec, ',') == texts && |texts| == |items|
    requires forall i | 0 <= i < |items| :: PartAllows(texts[i], port) <==> items[i].Covers(port)
    ensures PortInSpec(spec, port) <==> Listed(items, port)
  {
    hide PartAllows, Split, Item.Covers;
  }

  /** The written entry with white space around it. */
  ghost predicate Wraps(text: string, item: Item) {
    exists before, after :: text == before + (Written(item) + after) && AllSpaces(before, Rust) && AllSpaces(after, Rust)
  }

  lemma NoComma(item: Item, before: string, after: string)
    requires AllSpaces(before, Rust) && AllSpaces(after, Rust)
    ensures ',' !in before + (Written(item) + after)
  {
    if item.Single? {
      NumeralText(item.port);
    } else {
      NumeralText(item.first);
      NumeralText(item.last);
    }
    hide Str;
    assert !Space(Rust, ',');
  }
}
