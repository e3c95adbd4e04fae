/** Group and region hierarchies: the indented group file, parents by name, and paths to the root. */
module GroupTree {
  import opened Wrappers
  import Bytes
  import opened Text

  type Node = string

  // ---- The indented file ----

  datatype Entry = Entry(tabs: nat, name: Node)

  /** How many tabs the line begins with. */
  function Tabs(line: string): (k: nat)
    ensures k <= |line| && (forall i | 0 <= i < k :: line[i] == '\t') && (k < |line| ==> line[k] != '\t')
  {
    if line != "" && line[0] == '\t' then 1 + Tabs(line[1..]) else 0
  }

  /** The lines that are not blank. */
  function Entries(lines: seq<string>): seq<Entry> {
    if lines == [] then []
    else
      var n := |lines| - 1;
      var name := Trim(lines[n], Python);
      Entries(lines[..n]) + if name == "" then [] else [Entry(Tabs(lines[n]), name)]
  }

  function Indent(tabs: nat): string {
    if tabs == 0 then "" else ['\t'] + Indent(tabs - 1)
  }

  lemma OneMoreTab(line: string)
    ensures Tabs(['\t'] + line) == 1 + Tabs(line)
  {
    assert (['\t'] + line)[1..] == line;
  }

  lemma OneMoreSpace(line: string)
    requires AllSpaces(line, Python)
    ensures AllSpaces(['\t'] + line, Python)
  {
    TabIsSpace();
    hide Space;
  }

  lemma IndentUnfolds(tabs: nat, rest: string)
    ensures Indent(0) + rest == rest && Indent(tabs + 1) == ['\t'] + Indent(tabs)
    ensures Indent(tabs + 1) + rest == ['\t'] + (Indent(tabs) + rest) && AllSpaces(Indent(0), Python)
  {}

  lemma {:induction false} TabsOfIndent(tabs: nat, rest: string)
    requires rest != "" ==> rest[0] != '\t'
    ensures Tabs(Indent(tabs) + rest) == tabs && AllSpaces(Indent(tabs), Python)
  {
    if tabs == 0 {
      IndentUnfolds(0, rest);
    } else {
      TabsOfIndent(tabs - 1, rest);
      IndentUnfolds(tabs - 1, rest);
      hide *;
      OneMoreTab(Indent(tabs - 1) + rest);
      OneMoreSpace(Indent(tabs - 1));
    }
  }

  lemma TabIsSpace()
    ensures Space(Python, '\t')
  {}

  /** One entry for every line with something on it, in order: its tabs, and its text without the white space around it. */
  lemma EntriesMean(lines: seq<string>, tabs: nat, before: string, name: string, after: string)
    requires AllSpaces(before, Python) && AllSpaces(after, Python) && (before != "" ==> before[0] != '\t')
    requires name != "" ==> !Space(Python, name[0]) && !Space(Python, name[|name| - 1])
    ensures var line := Indent(tabs) + before + (name + after);
      Entries(lines + [line]) == Entries(lines) + if name == "" then [] else [Entry(tabs, name)]
  {
    var line := Indent(tabs) + before + (name + after);
    OneMoreLine(lines, line);
    TabsOfIndent(tabs, before);
    SpacesTogether(Indent(tabs), before);
    TrimPadded(Indent(tabs) + before, name, after, Python);
    if name != "" {
      NoTabFirst(before, name, after);
      TabsOfIndent(tabs, before + (name + after));
      Bytes.Assoc(Indent(tabs), before, name + after);
    }
    hide *;
  }

  lemma OneMoreLine(lines: seq<string>, line: string)
    ensures Entries(lines + [line]) ==
            Entries(lines) + if Trim(line, Python) == "" then [] else [Entry(Tabs(line), Trim(line, Python))]
  {
    assert (lines + [line])[..|lines|] == lines;
    hide Trim, Tabs;
  }

  lemma SpacesTogether(a: string, b: string)
    requires AllSpaces(a, Python) && AllSpaces(b, Python)
    ensures AllSpaces(a + b, Python)
  {
    hide Space;
  }

  lemma NoTabFirst(before: string, name: string, after: string)
    requires name != "" && !Space(Python, name[0]) && (before != "" ==> before[0] != '\t')
    ensures (before + (name + after))[0] != '\t'
  {}

  /** The nearest of the first `j` entries with fewer tabs. */
  function Above(es: seq<Entry>, j: nat, tabs: nat): (r: Option<nat>)
    requires j <= |es|
    ensures r.Some? ==> r.value < j && es[r.value].tabs < tabs
    ensures forall k | (if r.Some? then r.value + 1 else 0) <= k < j :: tabs <= es[k].tabs
  {
    if j == 0 then None else if es[j - 1].tabs < tabs then Some(j - 1) else Above(es, j - 1, tabs)
  }

  function ParentAt(es: seq<Entry>, i: nat): Option<Node>
    requires i < |es|
  {
    var j := Above(es, i, es[i].tabs);
    if j.None? then None else Some(es[j.value].name)
  }

  /** A later line with the same name overrides an earlier one. */
  function FileParents(es: seq<Entry>, n: nat): map<Node, Option<Node>>
    requires n <= |es|
  {
    if n == 0 then map[] else FileParents(es, n - 1)[es[n - 1].name := ParentAt(es, n - 1)]
  }

  /** The stack holds the entries `at`, tabs growing; every other entry is shadowed by a later one on the stack. */
  ghost predicate StackOf(es: seq<Entry>, n: nat, stack: seq<Entry>, at: seq<nat>) {
    && n <= |es| && |at| == |stack|
    && (forall k | 0 <= k < |at| :: at[k] < n && stack[k] == es[at[k]])
    && (forall k, l | 0 <= k < l < |at| :: at[k] < at[l] && stack[k].tabs < stack[l].tabs)
    && (forall j | 0 <= j < n :: j in at || Shadowed(es, at, j))
  }

  ghost predicate Shadowed(es: seq<Entry>, at: seq<nat>, j: nat)
    requires j < |es|
  {
    exists k | 0 <= k < |at| :: j < at[k] < |es| && es[at[k]].tabs <= es[j].tabs
  }

  /** Once the deeper entries are popped, the top of the stack is the nearest entry above. */
  lemma TopIsAbove(es: seq<Entry>, n: nat, whole: seq<Entry>, at: seq<nat>, top: nat, tabs: nat)
    requires StackOf(es, n, whole, at) && top <= |whole|
    requires 0 < top ==> whole[top - 1].tabs < tabs
    requires forall k | top <= k < |whole| :: tabs <= whole[k].tabs
    ensures Above(es, n, tabs) == if top == 0 then None else Some(at[top - 1])
  {
    var from := if top == 0 then 0 else at[top - 1] + 1;
    forall j | from <= j < n
      ensures tabs <= es[j].tabs
    {
      if j in at {
        var k :| 0 <= k < |at| && at[k] == j;
        assert top <= k;
      } else {
        var k :| 0 <= k < |at| && j < at[k] < |es| && es[at[k]].tabs <= es[j].tabs;
        assert top <= k;
      }
    }
  }

  /** An entry shadowed before stays shadowed when deeper entries make room for a new one. */
  lemma StillShadowed(es: seq<Entry>, n: nat, at: seq<nat>, top: nat, j: nat)
    requires n < |es| && top <= |at| && j < n
    requires j in at || Shadowed(es, at, j)
    requires forall k | 0 <= k < |at| :: at[k] < n
    requires forall k | top <= k < |at| :: es[n].tabs <= es[at[k]].tabs
    ensures j in at[..top] + [n] || Shadowed(es, at[..top] + [n], j)
  {
    var at' := at[..top] + [n];
    assert at'[top] == n;
    var k :| 0 <= k < |at| && (at[k] == j || (j < at[k] < |es| && es[at[k]].tabs <= es[j].tabs));
    if k < top {
      assert at'[k] == at[k];
    } else {
      assert j < at'[top] < |es| && es[at'[top]].tabs <= es[j].tabs;
    }
  }

  /** Pushing an entry after popping the deeper ones keeps the stack. */
  lemma PushKeepsStack(es: seq<Entry>, n: nat, whole: seq<Entry>, at: seq<nat>, top: nat)
    requires n < |es| && StackOf(es, n, whole, at) && top <= |whole|
    requires 0 < top ==> whole[top - 1].tabs < es[n].tabs
    requires forall k | top <= k < |whole| :: es[n].tabs <= whole[k].tabs
    ensures StackOf(es, n + 1, whole[..top] + [es[n]], at[..top] + [n])
  {
    hide Shadowed;
    var at' := at[..top] + [n];
    assert at'[top] == n;
    forall j | 0 <= j < n
      ensures j in at' || Shadowed(es, at', j)
    {
      StillShadowed(es, n, at, top, j);
    }
  }

  /** Pops the entries that are not above a line with that many tabs. */
  method Pop(whole: seq<Entry>, tabs: nat) returns (stack: seq<Entry>)
    ensures |stack| <= |whole| && stack == whole[..|stack|]
    ensures stack != [] ==> whole[|stack| - 1].tabs < tabs
    ensures forall k | |stack| <= k < |whole| :: tabs <= whole[k].tabs
  {
    stack := whole;
    while stack != [] && tabs <= stack[|stack| - 1].tabs
      invariant |stack| <= |whole| && stack == whole[..|stack|]
      invariant forall k | |stack| <= k < |whole| :: tabs <= whole[k].tabs
    {
      stack := stack[..|stack| - 1];
    }
  }

  /** After `i` lines, `n` of them entries. */
  ghost predicate Parsed(lines: seq<string>, i: nat, n: nat, stack: seq<Entry>, at: seq<nat>, parent: map<Node, Option<Node>>) {
    var es := Entries(lines);
    && i <= |lines| && n <= |es| && Entries(lines[..i]) == es[..n]
    && StackOf(es, n, stack, at) && parent == FileParents(es, n)
  }

  method TakeLine(stack: seq<Entry>, tabs: nat, name: Node, parent: map<Node, Option<Node>>,
                  ghost lines: seq<string>, ghost i: nat, ghost n: nat, ghost at: seq<nat>)
    returns (stack': seq<Entry>, parent': map<Node, Option<Node>>, ghost at': seq<nat>)
    requires i < |lines| && Parsed(lines, i, n, stack, at, parent)
    requires name == Trim(lines[i], Python) && name != "" && tabs == Tabs(lines[i])
    ensures Parsed(lines, i + 1, n + 1, stack', at', parent')
  {
    hide *;
    var rest := Pop(stack, tabs);
    EntryParsed(lines, i, n, stack, at, parent, |rest|);
    parent' := parent[name := if rest == [] then None else Some(rest[|rest| - 1].name)];
    stack' := rest + [Entry(tabs, name)];
    at' := at[..|rest|] + [n];
  }

  /** `parse_file_tree`: every label gets the nearest line above it with fewer tabs. */
  method ParseFileTree(lines: seq<string>) returns (parent: map<Node, Option<Node>>)
    ensures var es := Entries(lines); parent == FileParents(es, |es|)
  {
    parent := map[];
    var stack: seq<Entry> := [];
    ghost var at: seq<nat> := [];
    ghost var n: nat := 0;
    ParseStarts(lines);
    hide *;
    for i := 0 to |lines|
      invariant Parsed(lines, i, n, stack, at, parent)
    {
      var name := Trim(lines[i], Python);
      if name == "" {
        BlankParsed(lines, i, n, stack, at, parent);
      } else {
        stack, parent, at := TakeLine(stack, Tabs(lines[i]), name, parent, lines, i, n, at);
        n := n + 1;
      }
    }
    AllParsed(lines, n, stack, at, parent);
  }

  lemma ParseStarts(lines: seq<string>)
    ensures Parsed(lines, 0, 0, [], [], map[])
  {
    assert lines[..0] == [];
  }

  lemma AllParsed(lines: seq<string>, n: nat, stack: seq<Entry>, at: seq<nat>, parent: map<Node, Option<Node>>)
    requires Parsed(lines, |lines|, n, stack, at, parent)
    ensures parent == FileParents(Entries(lines), |Entries(lines)|)
  {
    hide Entries, FileParents, StackOf;
    assert lines[..|lines|] == lines;
  }

  lemma BlankParsed(lines: seq<string>, i: nat, n: nat, stack: seq<Entry>, at: seq<nat>, parent: map<Node, Option<Node>>)
    requires i < |lines| && Parsed(lines, i, n, stack, at, parent) && Trim(lines[i], Python) == ""
    ensures Parsed(lines, i + 1, n, stack, at, parent)
  {
    hide Entries, FileParents, StackOf, Trim, Tabs;
    NextEntry(lines, i, n);
  }

  lemma EntryParsed(lines: seq<string>, i: nat, n: nat, stack: seq<Entry>, at: seq<nat>, parent: map<Node, Option<Node>>, top: nat)
    requires i < |lines| && Parsed(lines, i, n, stack, at, parent) && Trim(lines[i], Python) != "" && top <= |stack|
    requires 0 < top ==> stack[top - 1].tabs < Tabs(lines[i])
    requires forall k | top <= k < |stack| :: Tabs(lines[i]) <= stack[k].tabs
    ensures |at| == |stack|
    ensures var name := Trim(lines[i], Python);
      Parsed(lines, i + 1, n + 1, stack[..top] + [Entry(Tabs(lines[i]), name)], at[..top] + [n],
             parent[name := if top == 0 then None else Some(stack[top - 1].name)])
  {
    hide Entries, FileParents, StackOf, Trim, Tabs;
    NextEntry(lines, i, n);
    EntryPlaced(Entries(lines), n, stack, at, top);
  }

  /** One entry processed: `top` entries of the stack are above it. */
  lemma EntryPlaced(es: seq<Entry>, n: nat, stack: seq<Entry>, at: seq<nat>, top: nat)
    requires n < |es| && StackOf(es, n, stack, at) && top <= |stack|
    requires 0 < top ==> stack[top - 1].tabs < es[n].tabs
    requires forall k | top <= k < |stack| :: es[n].tabs <= stack[k].tabs
    ensures |at| == |stack| && StackOf(es, n + 1, stack[..top] + [es[n]], at[..top] + [n])
    ensures FileParents(es, n + 1) == FileParents(es, n)[es[n].name := if top == 0 then None else Some(stack[top - 1].name)]
  {
    TopIsAbove(es, n, stack, at, top, es[n].tabs);
    PushKeepsStack(es, n, stack, at, top);
    hide Above;
  }

  /** What the next line adds to the entries. */
  lemma NextEntry(lines: seq<string>, i: nat, n: nat)
    requires i < |lines| && n <= |Entries(lines)| && Entries(lines[..i]) == Entries(lines)[..n]
    ensures var name := Trim(lines[i], Python);
      if name == "" then Entries(lines[..i + 1]) == Entries(lines)[..n]
      else n < |Entries(lines)| && Entries(lines)[n] == Entry(Tabs(lines[i]), name)
           && Entries(lines[..i + 1]) == Entries(lines)[..n + 1]
  {
    hide Trim, Tabs;
    EntriesPrefix(lines, i + 1);
    assert lines[..i + 1][..i] == lines[..i];
    var name := Trim(lines[i], Python);
    var more := Entries(lines[..i + 1]);
    assert more == Entries(lines[..i]) + if name == "" then [] else [Entry(Tabs(lines[i]), name)];
    assert more == Entries(lines)[..|more|];
    if name != "" {
      assert more[n] == Entry(Tabs(lines[i]), name);
    }
  }

  lemma {:induction false} EntriesPrefix(lines: seq<string>, i: nat)
    requires i <= |lines|
    ensures Entries(lines[..i]) <= Entries(lines)
    decreases |lines|
  {
    if i == |lines| {
      assert lines[..i] == lines;
    } else {
      var n := |lines| - 1;
      EntriesPrefix(lines[..n], i);
      assert lines[..n][..i] == lines[..i];
    }
  }

  // ---- Parents by name ----

  /** The longest prefix before one of the first `n` characters, an underscore, that is a name. */
  function LongestName(g: Node, n: nat, names: set<Node>): (k: Option<nat>)
    requires n <= |g|
    ensures k.Some? ==> k.value < n && g[k.value] == '_' && g[..k.value] in names
                        && forall j | k.value < j < n && g[j] == '_' :: g[..j] !in names
    ensures k.None? ==> forall j | 0 <= j < n && g[j] == '_' :: g[..j] !in names
  {
    if n == 0 then None
    else if g[n - 1] == '_' && g[..n - 1] in names then Some(n - 1)
    else LongestName(g, n - 1, names)
  }

  /** `name_parent`: the longest proper prefix before an underscore that is a name. */
  method NameParent(g: Node, names: set<Node>) returns (k: Option<nat>)
    ensures k == LongestName(g, |g|, names)
    ensures k.Some? ==> k.value < |g| && g[k.value] == '_' && g[..k.value] in names
                        && forall j | k.value < j < |g| && g[j] == '_' :: g[..j] !in names
    ensures k.None? ==> forall j | 0 <= j < |g| && g[j] == '_' :: g[..j] !in names
  {
    var n: nat := |g|;
    while n > 0
      invariant n <= |g| && LongestName(g, |g|, names) == LongestName(g, n, names)
    {
      n := n - 1;
      if g[n] == '_' && g[..n] in names {
        return Some(n);
      }
    }
    return None;
  }

  /** `parent_label`: what is stated for the label, by hand or in the file, and otherwise its name parent. */
  function ParentLabel(stated: map<Node, Option<Node>>, names: set<Node>, g: Node): Option<Node> {
    if g in stated then stated[g]
    else
      match LongestName(g, |g|, names)
      case None => None
      case Some(k) => Some(g[..k])
  }

  /** A manual entry comes before the file's. */
  function Stated(manual: map<Node, Node>, file: map<Node, Option<Node>>): map<Node, Option<Node>> {
    file + map g | g in manual :: Some(manual[g])
  }

  /** A manual parent, else the file's, else the longest prefix before an underscore that is a label. */
  lemma ParentsMean(manual: map<Node, Node>, file: map<Node, Option<Node>>, names: set<Node>, g: Node)
    ensures g in manual ==> ParentLabel(Stated(manual, file), names, g) == Some(manual[g])
    ensures g !in manual && g in file ==> ParentLabel(Stated(manual, file), names, g) == file[g]
    ensures g !in manual && g !in file ==>
            match ParentLabel(Stated(manual, file), names, g)
            case None => forall j | 0 <= j < |g| && g[j] == '_' :: g[..j] !in names
            case Some(p) => p + "_" <= g && p in names && forall j | |p| < j < |g| && g[j] == '_' :: g[..j] !in names
  {
    if g !in manual && g !in file {
      var k := LongestName(g, |g|, names);
      hide LongestName;
      if k.Some? { assert g[..k.value] + "_" == g[..k.value + 1]; }
    }
  }

  /** The parents of all labels. */
  function AllParents(stated: map<Node, Option<Node>>, names: set<Node>): map<Node, Option<Node>> {
    map g | g in names :: ParentLabel(stated, names, g)
  }

  // ---- Walking to the root ----

  /** The nodes from `n` upwards, stopping at a node already seen. */
  function Up(next: map<Node, Node>, n: Node, seen: set<Node>): seq<Node>
    decreases next.Keys - seen, n !in seen
  {
    if n in seen then []
    else if n in next then
      assert n in next.Keys - seen;
      [n] + Up(next, next[n], seen + {n})
    else [n]
  }

  function Reversed<T>(s: seq<T>): seq<T> {
    if s == [] then [] else Reversed(s[1..]) + [s[0]]
  }

  /** The labels of a path, root first. */
  function Path(next: map<Node, Node>, n: Node): seq<Node> {
    Reversed(Up(next, n, {}))
  }

  /** The links of a parent table; the empty string and `None` both mean no parent. */
  function Links(parent: map<Node, Option<Node>>): map<Node, Node> {
    map n | n in parent && parent[n].Some? && parent[n].value != "" :: parent[n].value
  }

  lemma ReversedSnoc<T>(s: seq<T>, x: T)
    ensures Reversed(s + [x]) == [x] + Reversed(s)
  {
    if s == [] {
      assert s + [x] == [x];
    } else {
      assert (s + [x])[1..] == s[1..] + [x];
      ReversedSnoc(s[1..], x);
    }
  }

  method Reverse(s: seq<Node>) returns (r: seq<Node>)
    ensures r == Reversed(s)
  {
    r := [];
    assert s[..0] == [];
    for i := 0 to |s|
      invariant r == Reversed(s[..i])
    {
      assert s[..i + 1] == s[..i] + [s[i]];
      ReversedSnoc(s[..i], s[i]);
      r := [s[i]] + r;
    }
    assert s[..|s|] == s;
  }

  /** What is left of the walk when `cur` comes next; the empty string is no node. */
  function Onward(next: map<Node, Node>, cur: Node, seen: set<Node>): seq<Node> {
    if cur == "" then [] else Up(next, cur, seen)
  }

  lemma OnwardStep(parentOf: map<Node, Option<Node>>, cur: Node, seen: set<Node>, parts: seq<Node>)
    requires cur != "" && cur !in seen
    ensures var next := Links(parentOf);
      parts + Onward(next, cur, seen) ==
      parts + [cur] + if cur in parentOf then Onward(next, GetOr(parentOf[cur], ""), seen + {cur}) else []
  {
    var next := Links(parentOf);
    var rest := if cur in parentOf then Onward(next, GetOr(parentOf[cur], ""), seen + {cur}) else [];
    assert Up(next, cur, seen) == [cur] + rest;
    assert parts + ([cur] + rest) == parts + [cur] + rest;
  }

  /** `chain_path`: a parent that is not in the table is the root. */
  method ChainPath(node: Node, parentOf: map<Node, Option<Node>>) returns (path: seq<Node>)
    ensures path == if node == "" then [] else Path(Links(parentOf), node)
  {
    var parts: seq<Node> := [];
    var seen: set<Node> := {};
    var cur := node;
    ghost var next := Links(parentOf);
    assert [] + Up(next, node, {}) == Up(next, node, {});
    hide Links, Up;
    if node == "" {
      return [];
    }
    while cur != "" && cur !in seen && cur in parentOf
      invariant forall p :: p in seen <==> p in parts
      invariant Up(next, node, {}) == parts + Onward(next, cur, seen)
      decreases parentOf.Keys - seen
    {
      OnwardStep(parentOf, cur, seen, parts);
      assert cur in parentOf.Keys - seen;
      seen := seen + {cur};
      parts := parts + [cur];
      cur := GetOr(parentOf[cur], "");
    }
    assert parts + [] == parts;
    if cur != "" && cur !in parts {
      OnwardStep(parentOf, cur, seen, parts);
      parts := parts + [cur];
      assert parts + [] == parts;
    } else {
      OnwardStops(next, cur, seen);
    }
    path := Reverse(parts);
  }

  lemma OnwardStops(next: map<Node, Node>, cur: Node, seen: set<Node>)
    requires cur == "" || cur in seen
    ensures Onward(next, cur, seen) == []
  {}

  /** The links between known groups. */
  function GroupLinks(ids: set<Node>, parentOf: map<Node, Option<Node>>): map<Node, Node> {
    map n | n in Links(parentOf) && Links(parentOf)[n] in ids :: Links(parentOf)[n]
  }

  function ParentOrNone(parentOf: map<Node, Option<Node>>, n: Node): Node {
    if n in parentOf then GetOr(parentOf[n], "") else ""
  }

  lemma GroupStep(ids: set<Node>, parentOf: map<Node, Option<Node>>, n: Node, seen: set<Node>, chain: seq<Node>)
    requires n !in seen
    ensures var next, p := GroupLinks(ids, parentOf), ParentOrNone(parentOf, n);
      chain + Up(next, n, seen) == chain + [n] + if p != "" && p in ids then Up(next, p, seen + {n}) else []
  {
    var next, p := GroupLinks(ids, parentOf), ParentOrNone(parentOf, n);
    var rest := if p != "" && p in ids then Up(next, p, seen + {n}) else [];
    assert Up(next, n, seen) == [n] + rest;
    assert chain + ([n] + rest) == chain + [n] + rest;
  }

  /** `gpath`: only parents that are groups themselves are followed. */
  method GroupPath(gid: Node, ids: set<Node>, parentOf: map<Node, Option<Node>>) returns (path: seq<Node>)
    requires gid in ids
    ensures path == Path(GroupLinks(ids, parentOf), gid)
  {
    ghost var next := GroupLinks(ids, parentOf);
    var chain, seen := [gid], {gid};
    var p := ParentOrNone(parentOf, gid);
    GroupStep(ids, parentOf, gid, {}, []);
    assert [] + Up(next, gid, {}) == Up(next, gid, {}) && {} + {gid} == {gid} && [] + [gid] == [gid];
    hide GroupLinks, ParentOrNone, Up;
    while p != "" && p in ids && p !in seen
      invariant Up(next, gid, {}) == chain + if p != "" && p in ids then Up(next, p, seen) else []
      decreases ids - seen
    {
      GroupStep(ids, parentOf, p, seen, chain);
      assert p in ids - seen;
      chain := chain + [p];
      seen := seen + {p};
      p := ParentOrNone(parentOf, p);
    }
    assert chain + [] == chain;
    if p != "" && p in ids {
      UpStops(next, p, seen);
    }
    path := Reverse(chain);
  }

  lemma UpStops(next: map<Node, Node>, n: Node, seen: set<Node>)
    requires n in seen
    ensures Up(next, n, seen) == []
  {}

  // ---- What the paths mean ----

  /** A walk along the links. */
  predicate Walk(next: map<Node, Node>, c: seq<Node>) {
    c != [] && forall i | 0 <= i < |c| - 1 :: c[i] in next && c[i + 1] == next[c[i]]
  }

  ghost predicate Reaches(next: map<Node, Node>, a: Node, b: Node) {
    exists c: seq<Node> :: Walk(next, c) && c[0] == a && c[|c| - 1] == b
  }

  ghost predicate ReachesUp(next: map<Node, Node>, a: Node, b: Node) {
    a in next && Reaches(next, next[a], b)
  }

  ghost predicate Acyclic(next: map<Node, Node>) {
    forall n :: !ReachesUp(next, n, n)
  }

  lemma ReachesSelf(next: map<Node, Node>, a: Node)
    ensures Reaches(next, a, a)
  {
    assert Walk(next, [a]) && [a][0] == a;
  }

  lemma ReachesFurther(next: map<Node, Node>, a: Node, b: Node)
    requires Reaches(next, a, b) && b in next
    ensures Reaches(next, a, next[b])
  {
    var c: seq<Node> :| Walk(next, c) && c[0] == a && c[|c| - 1] == b;
    var d := c + [next[b]];
    assert Walk(next, d) && d[0] == a && d[|d| - 1] == next[b];
  }

  lemma ReachesThrough(next: map<Node, Node>, a: Node, b: Node)
    requires a in next && Reaches(next, next[a], b)
    ensures Reaches(next, a, b)
  {
    var c: seq<Node> :| Walk(next, c) && c[0] == next[a] && c[|c| - 1] == b;
    var d := [a] + c;
    assert Walk(next, d) && d[0] == a && d[|d| - 1] == b;
  }

  lemma ReachesSplit(next: map<Node, Node>, a: Node, b: Node)
    requires Reaches(next, a, b) && a != b
    ensures ReachesUp(next, a, b)
  {
    var c: seq<Node> :| Walk(next, c) && c[0] == a && c[|c| - 1] == b;
    var d := c[1..];
    assert Walk(next, d) && d[0] == next[a] && d[|d| - 1] == b;
  }

  /** On any map, cyclic or not, the walk visits no node twice, and only nodes it can reach. */
  lemma {:induction false} UpVisits(next: map<Node, Node>, n: Node, seen: set<Node>)
    ensures var u := Up(next, n, seen);
      && (forall i | 0 <= i < |u| :: u[i] !in seen && Reaches(next, n, u[i]))
      && (forall i, j | 0 <= i < j < |u| :: u[i] != u[j])
      && (n !in seen ==> u != [] && u[0] == n)
    decreases next.Keys - seen, n !in seen
  {
    hide Reaches;
    ReachesSelf(next, n);
    if n !in seen && n in next {
      assert n in next.Keys - seen;
      UpVisits(next, next[n], seen + {n});
      var rest := Up(next, next[n], seen + {n});
      forall i | 0 <= i < |rest|
        ensures Reaches(next, n, rest[i])
      {
        ReachesThrough(next, n, rest[i]);
      }
    }
  }

  /** The visited nodes are closed under the links, but for what was seen before. */
  lemma {:induction false} UpClosed(next: map<Node, Node>, n: Node, seen: set<Node>, x: Node)
    requires x in Up(next, n, seen) && x in next
    ensures next[x] in Up(next, n, seen) || next[x] in seen
    decreases next.Keys - seen, n !in seen
  {
    if n in next {
      assert n in next.Keys - seen;
      var rest := Up(next, next[n], seen + {n});
      if x == n {
        UpVisits(next, next[n], seen + {n});
      } else {
        UpClosed(next, next[n], seen + {n}, x);
      }
    }
  }

  /** On any map the path of a node holds exactly the nodes above it and itself, each once. */
  lemma PathHoldsReachable(next: map<Node, Node>, n: Node, m: Node)
    ensures m in Path(next, n) <==> Reaches(next, n, m)
    ensures forall i, j | 0 <= i < j < |Path(next, n)| :: Path(next, n)[i] != Path(next, n)[j]
  {
    var u := Up(next, n, {});
    UpVisits(next, n, {});
    ReversedHas(u, m);
    ReversedDistinct(u);
    if Reaches(next, n, m) {
      var c: seq<Node> :| Walk(next, c) && c[0] == n && c[|c| - 1] == m;
      WalkVisited(next, n, c);
    }
  }

  lemma {:induction false} WalkVisited(next: map<Node, Node>, n: Node, c: seq<Node>)
    requires Walk(next, c) && c[0] in Up(next, n, {})
    ensures c[|c| - 1] in Up(next, n, {})
    decreases |c|
  {
    hide Up;
    if 1 < |c| {
      UpClosed(next, n, {}, c[0]);
      WalkVisited(next, n, c[1..]);
    }
  }

  lemma {:induction false} ReversedHas(s: seq<Node>, x: Node)
    ensures x in Reversed(s) <==> x in s
  {
    if s != [] {
      ReversedHas(s[1..], x);
      assert s == [s[0]] + s[1..];
    }
  }

  lemma {:induction false} ReversedDistinct(s: seq<Node>)
    requires forall i, j | 0 <= i < j < |s| :: s[i] != s[j]
    ensures var r := Reversed(s); forall i, j | 0 <= i < j < |r| :: r[i] != r[j]
  {
    if s != [] {
      ReversedDistinct(s[1..]);
      ReversedHas(s[1..], s[0]);
      assert s[0] !in s[1..];
      var before := Reversed(s[1..]);
      forall i, j | 0 <= i < j < |before + [s[0]]|
        ensures (before + [s[0]])[i] != (before + [s[0]])[j]
      {
        if j == |before| { assert before[i] in before; }
      }
    }
  }

  lemma NotAboveItself(next: map<Node, Node>, n: Node, below: set<Node>)
    requires Acyclic(next) && forall s | s in below :: ReachesUp(next, s, n)
    ensures n !in below
  {
    hide ReachesUp;
  }

  /** Without cycles what was seen on the way never stops the walk. */
  lemma {:induction false} SeenDoesNotMatter(next: map<Node, Node>, n: Node, seen: set<Node>, other: set<Node>)
    requires Acyclic(next)
    requires forall s | s in seen + other :: ReachesUp(next, s, n)
    ensures Up(next, n, seen) == Up(next, n, other)
    decreases next.Keys - seen
  {
    hide Reaches;
    NotAboveItself(next, n, seen + other);
    if n in next {
      assert n in next.Keys - seen;
      ReachesSelf(next, next[n]);
      forall s | s in seen + {n} + (other + {n})
        ensures ReachesUp(next, s, next[n])
      {
        if s != n {
          assert s in seen + other;
          ReachesFurther(next, next[s], n);
        }
      }
      SeenDoesNotMatter(next, next[n], seen + {n}, other + {n});
    }
  }

  /** A path is the parent's path and the node. */
  lemma PathOfParent(next: map<Node, Node>, n: Node)
    requires Acyclic(next)
    ensures Path(next, n) == if n in next then Path(next, next[n]) + [n] else [n]
  {
    if n in next {
      ReachesSelf(next, next[n]);
      SeenDoesNotMatter(next, next[n], {n}, {});
      hide Reaches, Acyclic;
      assert {} + {n} == {n};
      assert Up(next, n, {}) == [n] + Up(next, next[n], {});
      assert Up(next, n, {})[1..] == Up(next, next[n], {});
    } else {
      assert Up(next, n, {}) == [n] && [n][1..] == [] && Reversed<Node>([]) == [];
      assert Reversed([n]) == [] + [n];
    }
  }

  /** The depth of the walk falls along every link. */
  lemma DepthFalls(next: map<Node, Node>, n: Node)
    requires Acyclic(next) && n in next
    ensures |Path(next, n)| == |Path(next, next[n])| + 1
  {
    PathOfParent(next, n);
  }

  lemma PathEnds(next: map<Node, Node>, n: Node)
    requires Acyclic(next)
    ensures Path(next, n) != [] && Path(next, n)[|Path(next, n)| - 1] == n
  {
    PathOfParent(next, n);
  }

  lemma {:induction false} AncestorIsPrefix(next: map<Node, Node>, a: Node, b: Node)
    requires Acyclic(next) && Reaches(next, b, a)
    ensures Path(next, a) <= Path(next, b)
    decreases |Path(next, b)|
  {
    hide Reaches, Acyclic, Path;
    if a != b {
      ReachesSplit(next, b, a);
      DepthFalls(next, b);
      AncestorIsPrefix(next, a, next[b]);
      PathOfParent(next, b);
    }
  }

  lemma {:induction false} PrefixIsAncestor(next: map<Node, Node>, a: Node, b: Node)
    requires Acyclic(next) && Path(next, a) <= Path(next, b)
    ensures Reaches(next, b, a)
    decreases |Path(next, b)|
  {
    hide Reaches, Acyclic, Path;
    PathEnds(next, a);
    PathEnds(next, b);
    PathOfParent(next, b);
    ReachesSelf(next, b);
    if |Path(next, a)| < |Path(next, b)| {
      assert b in next && Path(next, a) <= Path(next, next[b]);
      PrefixIsAncestor(next, a, next[b]);
      ReachesThrough(next, b, a);
    }
  }

  /** One path is a prefix of another exactly when its node is the other's ancestor, or the same. */
  lemma PrefixIffAncestor(next: map<Node, Node>, a: Node, b: Node)
    requires Acyclic(next)
    ensures Path(next, a) <= Path(next, b) <==> Reaches(next, b, a)
  {
    if Path(next, a) <= Path(next, b) { PrefixIsAncestor(next, a, b); }
    if Reaches(next, b, a) { AncestorIsPrefix(next, a, b); }
  }

  // ---- Telling cycles apart ----

  /** Following the links from `n` comes to a node without one within `k` steps. */
  predicate Climbs(next: map<Node, Node>, n: Node, k: nat)
    decreases k
  {
    n !in next || (0 < k && Climbs(next, next[n], k - 1))
  }

  lemma {:induction false} CycleNeverClimbs(next: map<Node, Node>, n: Node, k: nat)
    requires ReachesUp(next, n, n)
    ensures !Climbs(next, n, k)
    decreases k
  {
    hide Reaches;
    var m := next[n];
    if m != n {
      ReachesSplit(next, m, n);
      ReachesFurther(next, next[m], n);
    }
    if 0 < k {
      CycleNeverClimbs(next, m, k - 1);
    }
  }

  lemma {:induction false} AcyclicClimbs(next: map<Node, Node>, n: Node, seen: set<Node>, k: nat)
    requires Acyclic(next) && |next.Keys - seen| <= k
    requires forall s | s in seen :: ReachesUp(next, s, n)
    ensures Climbs(next, n, k)
    decreases k
  {
    hide Reaches;
    NotAboveItself(next, n, seen);
    if n in next {
      ReachesSelf(next, next[n]);
      forall s | s in seen + {n}
        ensures ReachesUp(next, s, next[n])
      {
        if s != n {
          ReachesFurther(next, next[s], n);
        }
      }
      assert next.Keys - (seen + {n}) == next.Keys - seen - {n};
      assert n in next.Keys - seen;
      AcyclicClimbs(next, next[n], seen + {n}, k - 1);
    }
  }

  /** A parent table has no cycles exactly when every node climbs out within as many steps as there are links. */
  lemma AcyclicIffClimbs(next: map<Node, Node>)
    ensures Acyclic(next) <==> forall n | n in next :: Climbs(next, n, |next|)
  {
    hide Reaches, Climbs;
    if Acyclic(next) {
      forall n | n in next
        ensures Climbs(next, n, |next|)
      {
        assert next.Keys - {} == next.Keys;
        AcyclicClimbs(next, n, {}, |next|);
      }
    }
    if forall n | n in next :: Climbs(next, n, |next|) {
      forall n
        ensures !ReachesUp(next, n, n)
      {
        if ReachesUp(next, n, n) {
          CycleNeverClimbs(next, n, |next|);
        }
      }
    }
  }

  // ---- The file as a tree ----

  /** No later line has the label of line `i`. */
  ghost predicate LastLine(es: seq<Entry>, i: nat) {
    i < |es| && forall j | i < j < |es| :: es[j].name != es[i].name
  }

  /** The line a label's last line stands below is the last of its own label. */
  ghost predicate ParentsAreLast(es: seq<Entry>) {
    forall i | 0 <= i < |es| && LastLine(es, i) && Above(es, i, es[i].tabs).Some? ::
      LastLine(es, Above(es, i, es[i].tabs).value)
  }

  predicate DistinctNames(es: seq<Entry>) {
    forall i, j | 0 <= i < j < |es| :: es[i].name != es[j].name
  }

  lemma {:induction false} FileParentsAt(es: seq<Entry>, n: nat, i: nat)
    requires i < n <= |es| && forall j | i < j < n :: es[j].name != es[i].name
    ensures es[i].name in FileParents(es, n) && FileParents(es, n)[es[i].name] == ParentAt(es, i)
  {
    hide ParentAt;
    if i < n - 1 {
      FileParentsAt(es, n - 1, i);
    }
  }

  lemma {:induction false} FileNames(es: seq<Entry>, n: nat, name: Node) returns (i: nat)
    requires n <= |es| && name in FileParents(es, n)
    ensures i < n && es[i].name == name && forall j | i < j < n :: es[j].name != name
  {
    hide ParentAt;
    i := n - 1;
    if es[n - 1].name != name {
      i := FileNames(es, n - 1, name);
    }
  }

  /** Along the links, from last line to last line, the lines go strictly up. */
  lemma {:induction false} WalkGoesUp(es: seq<Entry>, c: seq<Node>, i: nat) returns (j: nat)
    requires ParentsAreLast(es) && Walk(Links(FileParents(es, |es|)), c) && LastLine(es, i) && c[0] == es[i].name
    ensures j <= i && LastLine(es, j) && es[j].name == c[|c| - 1] && (1 < |c| ==> j < i)
    decreases |c|
  {
    if |c| == 1 {
      j := i;
    } else {
      FileParentsAt(es, |es|, i);
      var above := Above(es, i, es[i].tabs);
      assert c[1] == es[above.value].name;
      j := WalkGoesUp(es, c[1..], above.value);
    }
  }

  lemma NoReturn(es: seq<Entry>, c: seq<Node>)
    requires ParentsAreLast(es) && Walk(Links(FileParents(es, |es|)), c) && 1 < |c|
    ensures c[0] != c[|c| - 1]
  {
    var i := FileNames(es, |es|, c[0]);
    var j := WalkGoesUp(es, c, i);
  }

  lemma WalkFrom(next: map<Node, Node>, n: Node, c: seq<Node>)
    requires n in next && Walk(next, c) && c[0] == next[n]
    ensures Walk(next, [n] + c)
  {}

  lemma ParentNeverReaches(es: seq<Entry>, n: Node)
    requires ParentsAreLast(es) && n in Links(FileParents(es, |es|))
    ensures !Reaches(Links(FileParents(es, |es|)), Links(FileParents(es, |es|))[n], n)
  {
    var next := Links(FileParents(es, |es|));
    hide Links, FileParents, ParentsAreLast;
    if Reaches(next, next[n], n) {
      var c: seq<Node> :| Walk(next, c) && c[0] == next[n] && c[|c| - 1] == n;
      WalkFrom(next, n, c);
      hide Walk;
      NoReturn(es, [n] + c);
    }
  }

  /** Repeated labels do no harm as long as every label's last line stands below another label's last line. */
  lemma FileTreeAcyclic(es: seq<Entry>)
    requires ParentsAreLast(es)
    ensures Acyclic(Links(FileParents(es, |es|)))
  {
    var next := Links(FileParents(es, |es|));
    hide Links, FileParents, ParentsAreLast, Reaches;
    forall n | n in next
      ensures !Reaches(next, next[n], n)
    {
      ParentNeverReaches(es, n);
    }
  }

  /** Distinct labels are the simplest case. */
  lemma DistinctNamesAcyclic(es: seq<Entry>)
    requires DistinctNames(es)
    ensures Acyclic(Links(FileParents(es, |es|)))
  {
    hide Above;
    forall i | 0 <= i < |es|
      ensures LastLine(es, i)
    {}
    FileTreeAcyclic(es);
  }

  /** The next element, round to the first. */
  function After<T>(s: seq<T>, k: nat): T
    requires k < |s|
  {
    if k + 1 < |s| then s[k + 1] else s[0]
  }

  lemma ClosedWalk(next: map<Node, Node>, names: seq<Node>)
    requires names != [] && forall k | 0 <= k < |names| :: names[k] in next && next[names[k]] == After(names, k)
    ensures ReachesUp(next, names[0], names[0])
  {
    var c := names[1..] + [names[0]];
    assert Walk(next, c) && c[0] == After(names, 0) && c[|c| - 1] == names[0];
  }

  /** Last lines of labels, each below a line of the next one's label, and the last of them below one of the first's. */
  ghost predicate Ring(es: seq<Entry>, at: seq<nat>) {
    at != [] && forall k | 0 <= k < |at| :: InRing(es, at, k)
  }

  ghost predicate InRing(es: seq<Entry>, at: seq<nat>, k: nat)
    requires k < |at|
  {
    && LastLine(es, at[k]) && After(at, k) < |es|
    && es[After(at, k)].name != "" && ParentAt(es, at[k]) == Some(es[After(at, k)].name)
  }

  lemma RingLink(es: seq<Entry>, at: seq<nat>, k: nat)
    requires k < |at| && InRing(es, at, k)
    ensures var next := Links(FileParents(es, |es|));
      es[at[k]].name in next && next[es[at[k]].name] == es[After(at, k)].name
  {
    FileParentsAt(es, |es|, at[k]);
  }

  function NamesAt(es: seq<Entry>, at: seq<nat>): (names: seq<Node>)
    requires forall k | 0 <= k < |at| :: at[k] < |es|
    ensures |names| == |at|
  {
    seq(|at|, k requires 0 <= k < |at| => es[at[k]].name)
  }

  lemma RingInFile(es: seq<Entry>, at: seq<nat>)
    requires Ring(es, at)
    ensures forall k | 0 <= k < |at| :: at[k] < |es|
  {
    forall k: nat | k < |at|
      ensures at[k] < |es|
    {
      assert InRing(es, at, k);
    }
  }

  lemma NameLinks(es: seq<Entry>, at: seq<nat>, k: nat)
    requires (forall j | 0 <= j < |at| :: at[j] < |es|) && k < |at| && InRing(es, at, k)
    ensures var next, names := Links(FileParents(es, |es|)), NamesAt(es, at);
      names[k] in next && next[names[k]] == After(names, k)
  {
    RingLink(es, at, k);
    hide Links, FileParents, ParentAt, LastLine;
  }

  lemma CycleShows(next: map<Node, Node>, n: Node)
    requires ReachesUp(next, n, n)
    ensures !Acyclic(next)
  {
    hide ReachesUp;
  }

  lemma RingMakesCycle(es: seq<Entry>, at: seq<nat>)
    requires Ring(es, at)
    ensures !Acyclic(Links(FileParents(es, |es|)))
  {
    RingInFile(es, at);
    assert at != [] && forall k | 0 <= k < |at| :: InRing(es, at, k);
    hide *;
    var next, names := Links(FileParents(es, |es|)), NamesAt(es, at);
    forall k: nat | k < |at|
      ensures names[k] in next && next[names[k]] == After(names, k)
    {
      NameLinks(es, at, k);
    }
    ClosedWalk(next, names);
    CycleShows(next, names[0]);
  }

  lemma CycleIsRing(es: seq<Entry>, n: Node) returns (at: seq<nat>)
    requires ReachesUp(Links(FileParents(es, |es|)), n, n)
    ensures Ring(es, at)
  {
    var next := Links(FileParents(es, |es|));
    var c: seq<Node> :| Walk(next, c) && c[0] == next[n] && c[|c| - 1] == n;
    var d := [n] + c;
    WalkFrom(next, n, c);
    at := [];
    while |at| < |c|
      invariant |at| <= |c|
      invariant forall k | 0 <= k < |at| :: LastLine(es, at[k]) && es[at[k]].name == d[k]
    {
      assert d[|at|] in next;
      var i := FileNames(es, |es|, d[|at|]);
      at := at + [i];
    }
    forall k: nat | k < |at|
      ensures InRing(es, at, k)
    {
      assert d[k] in next && next[d[k]] == d[k + 1];
      FileParentsAt(es, |es|, at[k]);
    }
  }

  /** The file's tree has no cycle exactly when no such ring is among its lines. */
  lemma FileTreeAcyclicIff(es: seq<Entry>)
    ensures Acyclic(Links(FileParents(es, |es|))) <==> !exists at :: Ring(es, at)
  {
    hide Ring, Links, FileParents, ReachesUp;
    var next := Links(FileParents(es, |es|));
    if at :| Ring(es, at) {
      RingMakesCycle(es, at);
    }
    if n :| ReachesUp(next, n, n) {
      var at := CycleIsRing(es, n);
    }
  }

  /** Two labels whose last lines stand below each other's lines make a cycle; so does one whose last line stands below its own. */
  lemma MutualLinesMakeCycle(es: seq<Entry>, i: nat, k: nat)
    requires LastLine(es, i) && LastLine(es, k) && es[i].name != "" && es[k].name != ""
    requires ParentAt(es, i) == Some(es[k].name) && ParentAt(es, k) == Some(es[i].name)
    ensures !Acyclic(Links(FileParents(es, |es|)))
  {
    hide ParentAt;
    assert InRing(es, [i, k], 0) && InRing(es, [i, k], 1);
    RingMakesCycle(es, [i, k]);
  }

  /** The shortest such file: a label that returns below its own child. */
  lemma RepeatedLabelMakesCycle(a: Node, b: Node)
    requires a != b && a != "" && b != ""
    ensures !Acyclic(Links(FileParents([Entry(0, a), Entry(1, b), Entry(2, a)], 3)))
  {
    var es := [Entry(0, a), Entry(1, b), Entry(2, a)];
    assert ParentAt(es, 2) == Some(b) && ParentAt(es, 1) == Some(a);
    MutualLinesMakeCycle(es, 2, 1);
  }

  // ---- File and name parents together ----

  /** A stated parent has a stated parent, or is stated to have none. */
  predicate Closed(stated: map<Node, Option<Node>>) {
    forall g | g in stated && stated[g].Some? :: stated[g].value in stated
  }

  lemma LinkIs(stated: map<Node, Option<Node>>, names: set<Node>, g: Node)
    requires stated.Keys <= names && Closed(stated)
    ensures var next, base := Links(AllParents(stated, names)), Links(stated);
      && (g in stated ==> (g in next <==> g in base) && (g in next ==> next[g] == base[g] && next[g] in stated))
      && (g !in stated ==> g !in base && (g in next ==> |next[g]| < |g|))
  {
    hide LongestName;
  }

  /** Once on a stated label, a walk stays on stated labels; before that it comes to ever shorter ones. */
  lemma {:induction false} WalkByNames(stated: map<Node, Option<Node>>, names: set<Node>, c: seq<Node>)
    requires stated.Keys <= names && Closed(stated) && Walk(Links(AllParents(stated, names)), c)
    ensures c[0] in stated ==> Walk(Links(stated), c) && c[|c| - 1] in stated
    ensures c[|c| - 1] !in stated ==> |c[|c| - 1]| <= |c[0]|
    decreases |c|
  {
    LinkIs(stated, names, c[0]);
    hide Links, AllParents, Closed;
    if 1 < |c| {
      WalkByNames(stated, names, c[1..]);
      assert c[0] in stated ==> forall i | 0 <= i < |c| - 1 :: c[i] in Links(stated) && c[i + 1] == Links(stated)[c[i]] by {
        assert forall i | 1 <= i < |c| :: c[i] == c[1..][i - 1];
      }
    }
  }

  lemma CycleIsStated(stated: map<Node, Option<Node>>, names: set<Node>, n: Node)
    requires stated.Keys <= names && Closed(stated) && ReachesUp(Links(AllParents(stated, names)), n, n)
    ensures ReachesUp(Links(stated), n, n)
  {
    var next := Links(AllParents(stated, names));
    var c: seq<Node> :| Walk(next, c) && c[0] == next[n] && c[|c| - 1] == n;
    LinkIs(stated, names, n);
    WalkByNames(stated, names, c);
  }

  lemma CycleStays(stated: map<Node, Option<Node>>, names: set<Node>, n: Node)
    requires stated.Keys <= names && Closed(stated) && ReachesUp(Links(stated), n, n)
    ensures ReachesUp(Links(AllParents(stated, names)), n, n)
  {
    var next, base := Links(AllParents(stated, names)), Links(stated);
    var c: seq<Node> :| Walk(base, c) && c[0] == base[n] && c[|c| - 1] == n;
    LinkIs(stated, names, n);
    forall g | g in base
      ensures g in next && next[g] == base[g]
    {
      LinkIs(stated, names, g);
    }
    hide Links;
    assert Walk(next, c);
  }

  /** Name parents never close a cycle: the whole tree has one exactly when the stated parents do. */
  lemma AllParentsAcyclicIff(stated: map<Node, Option<Node>>, names: set<Node>)
    requires stated.Keys <= names && Closed(stated)
    ensures Acyclic(Links(AllParents(stated, names))) <==> Acyclic(Links(stated))
  {
    hide Links, AllParents, ReachesUp, Closed;
    if n :| ReachesUp(Links(AllParents(stated, names)), n, n) {
      CycleIsStated(stated, names, n);
    }
    if n :| ReachesUp(Links(stated), n, n) {
      CycleStays(stated, names, n);
    }
  }

  lemma FileIsClosed(es: seq<Entry>, n: nat)
    requires n <= |es|
    ensures Closed(FileParents(es, n))
  {
    hide Above;
    forall g | g in FileParents(es, n) && FileParents(es, n)[g].Some?
      ensures FileParents(es, n)[g].value in FileParents(es, n)
    {
      var i := FileNames(es, n, g);
      FileParentsAt(es, n, i);
      var above := Above(es, i, es[i].tabs);
      FileHas(es, n, above.value);
    }
  }

  lemma {:induction false} FileHas(es: seq<Entry>, n: nat, i: nat)
    requires i < n <= |es|
    ensures es[i].name in FileParents(es, n)
  {
    hide ParentAt;
    if i < n - 1 {
      FileHas(es, n - 1, i);
    }
  }

  /** Without manual entries, the tree of all labels has no cycle exactly when no ring of last lines is in the file. */
  lemma TreeAcyclicIff(es: seq<Entry>, names: set<Node>)
    requires FileParents(es, |es|).Keys <= names
    ensures Acyclic(Links(AllParents(Stated(map[], FileParents(es, |es|)), names))) <==> !exists at :: Ring(es, at)
  {
    var file := FileParents(es, |es|);
    FileIsClosed(es, |es|);
    assert Stated(map[], file) == file;
    AllParentsAcyclicIff(file, names);
    hide *;
    FileTreeAcyclicIff(es);
  }
}
