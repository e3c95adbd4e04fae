/**
 Data classification from spreadsheet rows to the store: rules are factored into sets by equal
 support, loaded by product or family name, resolved per product and written out as one hash each.
 */
module Classification {
  import opened Text

  type Code = string

  const CLASS_ORDER: seq<Code> := ["PHI", "UPD", "RD", "PII", "ACD", "DSH", "TSD", "STD"]

  datatype Rule = Rule(regex: string, codes: seq<Code>)

  /** One spreadsheet row: `target` is a product name, or a family name for the family modalities. */
  datatype Pair = Pair(target: string, rule: Rule)

  datatype RuleSet = RuleSet(targets: set<string>, rules: seq<Rule>)

  predicate NoDup<T(==)>(s: seq<T>) {
    forall i, j | 0 <= i < j < |s| :: s[i] != s[j]
  }

  // ---- Factoring ----

  function Rules(pairs: seq<Pair>): set<Rule> {
    set p | p in pairs :: p.rule
  }

  function Support(pairs: seq<Pair>, r: Rule): set<string> {
    set p | p in pairs && p.rule == r :: p.target
  }

  ghost predicate Covered(sets: seq<RuleSet>, r: Rule) {
    exists i | 0 <= i < |sets| :: r in sets[i].rules
  }

  /** The sets are the classes of the rules under equal support. */
  ghost predicate Grouped(pairs: seq<Pair>, sets: seq<RuleSet>) {
    && (forall i | 0 <= i < |sets| :: sets[i].rules != [] && NoDup(sets[i].rules))
    && (forall i, r | 0 <= i < |sets| && r in sets[i].rules ::
          r in Rules(pairs) && Support(pairs, r) == sets[i].targets)
    && (forall r | r in Rules(pairs) :: Covered(sets, r))
    && (forall i, j | 0 <= i < j < |sets| :: sets[i].targets != sets[j].targets)
  }

  /** The first pass of `factor_modality`: which targets carry each rule. */
  method Supports(pairs: seq<Pair>) returns (support: map<Rule, set<string>>)
    ensures support.Keys == Rules(pairs)
    ensures forall r | r in support :: support[r] == Support(pairs, r)
  {
    support := map[];
    for i := 0 to |pairs|
      invariant support.Keys == Rules(pairs[..i])
      invariant forall r | r in support :: support[r] == Support(pairs[..i], r)
    {
      var p := pairs[i];
      assert pairs[..i + 1] == pairs[..i] + [p];
      assert Rules(pairs[..i + 1]) == Rules(pairs[..i]) + {p.rule};
      assert forall r :: Support(pairs[..i + 1], r) == Support(pairs[..i], r) + if r == p.rule then {p.target} else {};
      assert p.rule !in support ==> Support(pairs[..i], p.rule) == {};
      support := support[p.rule := (if p.rule in support then support[p.rule] else {}) + {p.target}];
    }
    assert pairs[..|pairs|] == pairs;
  }

  ghost predicate BySignature(support: map<Rule, set<string>>, todo: set<Rule>, bySig: map<set<string>, seq<Rule>>) {
    && (forall sig | sig in bySig :: bySig[sig] != [] && NoDup(bySig[sig]))
    && (forall sig, r | sig in bySig && r in bySig[sig] :: r in support && r !in todo && support[r] == sig)
    && (forall r | r in support && r !in todo :: support[r] in bySig && r in bySig[support[r]])
  }

  /** The second pass. The order in which the rules come up is left open. */
  method Signatures(support: map<Rule, set<string>>) returns (bySig: map<set<string>, seq<Rule>>)
    ensures BySignature(support, {}, bySig)
  {
    bySig := map[];
    var todo := support.Keys;
    while todo != {}
      invariant todo <= support.Keys && BySignature(support, todo, bySig)
      decreases |todo|
    {
      var r :| r in todo;
      var sig := support[r];
      bySig := bySig[sig := (if sig in bySig then bySig[sig] else []) + [r]];
      todo := todo - {r};
    }
  }

  ghost predicate Collected(bySig: map<set<string>, seq<Rule>>, todo: set<set<string>>, sets: seq<RuleSet>) {
    && (forall i | 0 <= i < |sets| ::
          sets[i].targets in bySig && sets[i].targets !in todo && sets[i].rules == bySig[sets[i].targets])
    && (forall sig | sig in bySig && sig !in todo :: exists i | 0 <= i < |sets| :: sets[i].targets == sig)
    && (forall i, j | 0 <= i < j < |sets| :: sets[i].targets != sets[j].targets)
  }

  lemma CollectedGroups(pairs: seq<Pair>, support: map<Rule, set<string>>, bySig: map<set<string>, seq<Rule>>,
                        sets: seq<RuleSet>)
    requires support.Keys == Rules(pairs) && forall r | r in support :: support[r] == Support(pairs, r)
    requires BySignature(support, {}, bySig) && Collected(bySig, {}, sets)
    ensures Grouped(pairs, sets)
  {
    hide Rules, Support;
    forall r | r in Rules(pairs)
      ensures Covered(sets, r)
    {
      var i :| 0 <= i < |sets| && sets[i].targets == support[r];
      assert r in sets[i].rules;
    }
    forall i, r | 0 <= i < |sets| && r in sets[i].rules
      ensures r in Rules(pairs) && Support(pairs, r) == sets[i].targets
    {
      assert r in bySig[sets[i].targets];
    }
  }

  lemma CollectOne(bySig: map<set<string>, seq<Rule>>, todo: set<set<string>>, sets: seq<RuleSet>, sig: set<string>)
    requires todo <= bySig.Keys && Collected(bySig, todo, sets) && sig in todo
    ensures Collected(bySig, todo - {sig}, sets + [RuleSet(sig, bySig[sig])])
  {
    var more := sets + [RuleSet(sig, bySig[sig])];
    forall other | other in bySig && other !in todo - {sig}
      ensures exists i | 0 <= i < |more| :: more[i].targets == other
    {
      if other == sig {
        assert more[|sets|].targets == other;
      } else {
        var i :| 0 <= i < |sets| && sets[i].targets == other;
        assert more[i].targets == other;
      }
    }
  }

  /** `factor_modality`, up to the order of the sets and of the rules within a set. */
  method FactorModality(pairs: seq<Pair>) returns (sets: seq<RuleSet>)
    ensures Grouped(pairs, sets)
  {
    var support := Supports(pairs);
    var bySig := Signatures(support);
    sets := [];
    var todo := bySig.Keys;
    assert Collected(bySig, todo, sets);
    hide Collected, BySignature, Grouped, Support, Rules;
    while todo != {}
      invariant todo <= bySig.Keys && Collected(bySig, todo, sets)
      decreases |todo|
    {
      var sig :| sig in todo;
      CollectOne(bySig, todo, sets, sig);
      sets := sets + [RuleSet(sig, bySig[sig])];
      todo := todo - {sig};
    }
    CollectedGroups(pairs, support, bySig, sets);
  }

  ghost predicate Delivers(sets: seq<RuleSet>, target: string, r: Rule) {
    exists i | 0 <= i < |sets| :: r in sets[i].rules && target in sets[i].targets
  }

  /** Every target receives exactly the rules it has in the input. */
  ghost predicate Lossless(pairs: seq<Pair>, sets: seq<RuleSet>) {
    forall target, r :: Delivers(sets, target, r) <==> Pair(target, r) in pairs
  }

  ghost predicate EachRuleOnce(sets: seq<RuleSet>) {
    forall i, j, r | 0 <= i < |sets| && 0 <= j < |sets| && r in sets[i].rules && r in sets[j].rules :: i == j
  }

  lemma FactoringIsLossless(pairs: seq<Pair>, sets: seq<RuleSet>)
    requires Grouped(pairs, sets)
    ensures Lossless(pairs, sets) && EachRuleOnce(sets)
  {
    forall i, j, r | 0 <= i < |sets| && 0 <= j < |sets| && r in sets[i].rules && r in sets[j].rules
      ensures i == j
    {
      assert sets[i].targets == Support(pairs, r) == sets[j].targets;
    }
    forall target, r
      ensures Delivers(sets, target, r) <==> Pair(target, r) in pairs
    {
      DeliveredIff(pairs, sets, target, r);
    }
  }

  lemma DeliveredIff(pairs: seq<Pair>, sets: seq<RuleSet>, target: string, r: Rule)
    requires Grouped(pairs, sets)
    ensures Delivers(sets, target, r) <==> Pair(target, r) in pairs
  {
    if Pair(target, r) in pairs {
      assert Pair(target, r).rule in Rules(pairs) && Covered(sets, r);
      var i :| 0 <= i < |sets| && r in sets[i].rules;
      assert Pair(target, r).target in Support(pairs, r);
    }
    if Delivers(sets, target, r) {
      var i :| 0 <= i < |sets| && r in sets[i].rules && target in sets[i].targets;
      assert target in Support(pairs, r);
      var p :| p in pairs && p.rule == r && p.target == target;
      assert p == Pair(target, r);
    }
  }

  /** In a lossless assignment that states every rule once, a rule's set goes to exactly the rule's support. */
  lemma SetHasSupport(pairs: seq<Pair>, sets: seq<RuleSet>, i: nat, r: Rule)
    requires Lossless(pairs, sets) && EachRuleOnce(sets) && i < |sets| && r in sets[i].rules
    ensures sets[i].targets == Support(pairs, r)
  {
    forall t
      ensures t in sets[i].targets <==> t in Support(pairs, r)
    {
      assert Delivers(sets, t, r) <==> Pair(t, r) in pairs;
      assert Pair(t, r) in pairs ==> Pair(t, r).rule == r && Pair(t, r).target == t;
      if t in Support(pairs, r) {
        var p :| p in pairs && p.rule == r && p.target == t;
        assert p == Pair(t, r);
      }
    }
  }

  lemma {:induction false} SetOfSize<T>(s: seq<T>)
    ensures |set x | x in s| <= |s|
    ensures NoDup(s) ==> |set x | x in s| == |s|
  {
    if s != [] {
      var rest := s[1..];
      SetOfSize(rest);
      assert (set x | x in s) == (set x | x in rest) + {s[0]};
      if NoDup(s) {
        assert NoDup(rest) && s[0] !in rest;
      }
    }
  }

  /** No lossless assignment that states every rule once has fewer sets. */
  lemma FewestSets(pairs: seq<Pair>, sets: seq<RuleSet>, other: seq<RuleSet>)
    requires Grouped(pairs, sets)
    requires Lossless(pairs, other) && EachRuleOnce(other)
    ensures |sets| <= |other|
  {
    var mine := seq(|sets|, i requires 0 <= i < |sets| => sets[i].targets);
    var theirs := seq(|other|, i requires 0 <= i < |other| => other[i].targets);
    SetOfSize(mine);
    SetOfSize(theirs);
    var a, b := set x | x in mine, set x | x in theirs;
    forall t | t in a
      ensures t in b
    {
      var i :| 0 <= i < |sets| && sets[i].targets == t;
      RuleHasSet(pairs, other, sets[i].rules[0]);
      var j :| 0 <= j < |other| && sets[i].rules[0] in other[j].rules;
      SetHasSupport(pairs, other, j, sets[i].rules[0]);
      assert theirs[j] == t;
    }
    Smaller(a, b);
  }

  lemma RuleHasSet(pairs: seq<Pair>, sets: seq<RuleSet>, r: Rule)
    requires Lossless(pairs, sets) && r in Rules(pairs)
    ensures Covered(sets, r)
  {
    var p :| p in pairs && p.rule == r;
    assert p == Pair(p.target, r);
    assert Delivers(sets, p.target, r);
  }

  lemma {:induction false} Smaller<T>(a: set<T>, b: set<T>)
    requires a <= b
    ensures |a| <= |b|
  {
    if a != {} {
      var x :| x in a;
      Smaller(a - {x}, b - {x});
    }
  }

  // ---- When no lossless assignment at all is smaller ----

  /** Input pairs of which no two fit in one set: crossing them gives a pair the input does not have. */
  ghost predicate Independent(pairs: seq<Pair>, ps: seq<Pair>) {
    && (forall i | 0 <= i < |ps| :: ps[i] in pairs)
    && (forall i, j | 0 <= i < j < |ps| ::
          !(Pair(ps[i].target, ps[j].rule) in pairs && Pair(ps[j].target, ps[i].rule) in pairs))
  }

  predicate Puts(holder: RuleSet, p: Pair) {
    p.rule in holder.rules && p.target in holder.targets
  }

  lemma OneSetPerPair(pairs: seq<Pair>, ps: seq<Pair>, other: seq<RuleSet>, i: nat, j: nat, k: nat)
    requires Independent(pairs, ps) && Lossless(pairs, other)
    requires i < j < |ps| && k < |other| && Puts(other[k], ps[i])
    ensures !Puts(other[k], ps[j])
  {
    if Puts(other[k], ps[j]) {
      assert Delivers(other, ps[i].target, ps[j].rule);
      assert Delivers(other, ps[j].target, ps[i].rule);
    }
  }

  /** Every lossless assignment, whether or not it repeats rules, has a set for each of the pairs. */
  lemma PairsNeedSets(pairs: seq<Pair>, ps: seq<Pair>, other: seq<RuleSet>)
    requires Independent(pairs, ps) && Lossless(pairs, other)
    ensures |ps| <= |other|
  {
    var at: seq<nat> := [];
    while |at| < |ps|
      invariant |at| <= |ps|
      invariant forall i | 0 <= i < |at| :: at[i] < |other| && Puts(other[at[i]], ps[i])
    {
      var p := ps[|at|];
      assert p == Pair(p.target, p.rule) && Delivers(other, p.target, p.rule);
      var k: nat :| 0 <= k < |other| && Puts(other[k], p);
      at := at + [k];
    }
    forall i, j | 0 <= i < j < |at|
      ensures at[i] != at[j]
    {
      OneSetPerPair(pairs, ps, other, i, j, at[i]);
    }
    DistinctIndices(at, |other|);
  }

  lemma DistinctIndices(at: seq<nat>, n: nat)
    requires NoDup(at) && forall i | 0 <= i < |at| :: at[i] < n
    ensures |at| <= n
  {
    var indices: seq<nat> := seq(n, i requires 0 <= i < n => i);
    SetOfSize(at);
    SetOfSize(indices);
    var a, b := set x: nat | x in at, set x: nat | x in indices;
    assert |a| == |at| && |b| <= n;
    forall x | x in a
      ensures x in b
    {
      assert indices[x] == x;
    }
    Smaller(a, b);
  }

  /** The factoring is the smallest of all lossless assignments whenever the input has as many independent pairs as it has sets. */
  lemma FewestOfAll(pairs: seq<Pair>, sets: seq<RuleSet>, ps: seq<Pair>, other: seq<RuleSet>)
    requires Grouped(pairs, sets) && Independent(pairs, ps) && |ps| == |sets|
    requires Lossless(pairs, other)
    ensures |sets| <= |other|
  {
    PairsNeedSets(pairs, ps, other);
  }

  /** A target of set `i` that only sets with all its targets share. */
  ghost predicate Owns(sets: seq<RuleSet>, i: nat, t: string)
    requires i < |sets|
  {
    t in sets[i].targets && forall j | 0 <= j < |sets| && t in sets[j].targets :: sets[i].targets <= sets[j].targets
  }

  ghost predicate HasOwn(sets: seq<RuleSet>, i: nat)
    requires i < |sets|
  {
    exists t :: Owns(sets, i, t)
  }

  ghost predicate OwnTargets(sets: seq<RuleSet>) {
    forall i | 0 <= i < |sets| :: HasOwn(sets, i)
  }

  lemma PairOfSet(pairs: seq<Pair>, sets: seq<RuleSet>, i: nat, j: nat, t: string)
    requires Grouped(pairs, sets) && i < |sets| && j < |sets|
    ensures Pair(t, sets[j].rules[0]) in pairs <==> t in sets[j].targets
  {
    var r := sets[j].rules[0];
    assert r in sets[j].rules && sets[j].targets == Support(pairs, r);
    assert Pair(t, r) in pairs ==> Pair(t, r).rule == r && Pair(t, r).target == t;
    if t in Support(pairs, r) {
      var p :| p in pairs && p.rule == r && p.target == t;
      assert p == Pair(t, r);
    }
  }

  /** A target of its own in every set makes the factoring the smallest of all lossless assignments. */
  lemma FewestWithOwnTargets(pairs: seq<Pair>, sets: seq<RuleSet>, other: seq<RuleSet>)
    requires Grouped(pairs, sets) && OwnTargets(sets)
    requires Lossless(pairs, other)
    ensures |sets| <= |other|
  {
    var ts: seq<string> := [];
    while |ts| < |sets|
      invariant |ts| <= |sets| && forall i | 0 <= i < |ts| :: Owns(sets, i, ts[i])
    {
      assert HasOwn(sets, |ts|);
      var t :| Owns(sets, |ts|, t);
      ts := ts + [t];
    }
    var ps := seq(|sets|, i requires 0 <= i < |sets| => Pair(ts[i], sets[i].rules[0]));
    forall i | 0 <= i < |ps|
      ensures ps[i] in pairs
    {
      PairOfSet(pairs, sets, i, i, ts[i]);
    }
    forall i, j | 0 <= i < j < |ps|
      ensures !(Pair(ps[i].target, ps[j].rule) in pairs && Pair(ps[j].target, ps[i].rule) in pairs)
    {
      PairOfSet(pairs, sets, i, j, ts[i]);
      PairOfSet(pairs, sets, j, i, ts[j]);
      assert sets[i].targets != sets[j].targets;
    }
    FewestOfAll(pairs, sets, ps, other);
  }

  lemma TargetsNotEmpty(pairs: seq<Pair>, sets: seq<RuleSet>, i: nat) returns (t: string)
    requires Grouped(pairs, sets) && i < |sets|
    ensures t in sets[i].targets
  {
    var r := sets[i].rules[0];
    assert r in sets[i].rules && r in Rules(pairs);
    var p :| p in pairs && p.rule == r;
    t := p.target;
    assert t in Support(pairs, r);
  }

  /** Rules whose supports are disjoint or equal. */
  lemma DisjointSupportsOwn(pairs: seq<Pair>, sets: seq<RuleSet>)
    requires Grouped(pairs, sets)
    requires forall i, j | 0 <= i < j < |sets| :: sets[i].targets !! sets[j].targets
    ensures OwnTargets(sets)
  {
    forall i | 0 <= i < |sets|
      ensures HasOwn(sets, i)
    {
      var t := TargetsNotEmpty(pairs, sets, i);
      assert Owns(sets, i, t);
    }
  }

  /** The targets of the first `n` sets that are properly inside set `i`. */
  function Inside(sets: seq<RuleSet>, i: nat, n: nat): set<string>
    requires i < |sets| && n <= |sets|
  {
    if n == 0 then {}
    else Inside(sets, i, n - 1) + if sets[n - 1].targets < sets[i].targets then sets[n - 1].targets else {}
  }

  lemma {:induction false} InsideHas(sets: seq<RuleSet>, i: nat, n: nat, j: nat)
    requires i < |sets| && j < n <= |sets| && sets[j].targets < sets[i].targets
    ensures sets[j].targets <= Inside(sets, i, n)
  {
    if j < n - 1 {
      InsideHas(sets, i, n - 1, j);
    }
  }

  ghost predicate Nested(sets: seq<RuleSet>) {
    forall i, j | 0 <= i < |sets| && 0 <= j < |sets| :: sets[i].targets <= sets[j].targets || sets[j].targets <= sets[i].targets
  }

  lemma {:induction false} InsideIsProper(sets: seq<RuleSet>, i: nat, n: nat)
    requires i < |sets| && n <= |sets| && Nested(sets) && sets[i].targets != {}
    ensures Inside(sets, i, n) < sets[i].targets
    ensures Inside(sets, i, n) == {} || exists j | 0 <= j < |sets| :: Inside(sets, i, n) == sets[j].targets
  {
    if n != 0 {
      InsideIsProper(sets, i, n - 1);
    }
  }

  /** Rules whose supports form a chain. */
  lemma NestedSupportsOwn(pairs: seq<Pair>, sets: seq<RuleSet>)
    requires Grouped(pairs, sets) && Nested(sets)
    ensures OwnTargets(sets)
  {
    forall i | 0 <= i < |sets|
      ensures HasOwn(sets, i)
    {
      var some := TargetsNotEmpty(pairs, sets, i);
      InsideIsProper(sets, i, |sets|);
      var t :| t in sets[i].targets && t !in Inside(sets, i, |sets|);
      forall j | 0 <= j < |sets| && t in sets[j].targets
        ensures sets[i].targets <= sets[j].targets
      {
        if sets[j].targets < sets[i].targets {
          InsideHas(sets, i, |sets|, j);
        }
      }
      assert Owns(sets, i, t);
    }
  }

  function Overlapping(a: Rule, b: Rule, c: Rule, s: string, t: string): seq<Pair> {
    [Pair(s, a), Pair(t, a), Pair(s, b), Pair(t, c)]
  }

  lemma OverlappingSupports(a: Rule, b: Rule, c: Rule, s: string, t: string)
    requires a != b && b != c && a != c
    ensures var pairs := Overlapping(a, b, c, s, t);
      && Rules(pairs) == {a, b, c}
      && Support(pairs, a) == {s, t} && Support(pairs, b) == {s} && Support(pairs, c) == {t}
  {
    var pairs := Overlapping(a, b, c, s, t);
    assert pairs[0] == Pair(s, a) && pairs[1] == Pair(t, a) && pairs[2] == Pair(s, b) && pairs[3] == Pair(t, c);
    assert a in Rules(pairs) && b in Rules(pairs) && c in Rules(pairs);
  }

  lemma DeliversOfTwo(x: RuleSet, y: RuleSet, target: string, r: Rule)
    ensures Delivers([x, y], target, r) <==> (r in x.rules && target in x.targets) || (r in y.rules && target in y.targets)
  {
    var two := [x, y];
    assert two[0] == x && two[1] == y;
    if r in x.rules && target in x.targets {
      assert r in two[0].rules && target in two[0].targets;
    } else if r in y.rules && target in y.targets {
      assert r in two[1].rules && target in two[1].targets;
    }
  }

  lemma OverlappingInTwo(a: Rule, b: Rule, c: Rule, s: string, t: string)
    requires a != b && b != c && a != c && s != t
    ensures Lossless(Overlapping(a, b, c, s, t), [RuleSet({s}, [a, b]), RuleSet({t}, [a, c])])
  {
    forall target, r
      ensures Delivers([RuleSet({s}, [a, b]), RuleSet({t}, [a, c])], target, r) <==>
              Pair(target, r) in Overlapping(a, b, c, s, t)
    {
      hide Delivers;
      DeliversOfTwo(RuleSet({s}, [a, b]), RuleSet({t}, [a, c]), target, r);
    }
  }

  /** Stating a rule twice can save a set: the factoring is not the smallest among all lossless assignments. */
  lemma RepeatingRulesCanSave(a: Rule, b: Rule, c: Rule, s: string, t: string, sets: seq<RuleSet>)
    requires a != b && b != c && a != c && s != t
    requires Grouped(Overlapping(a, b, c, s, t), sets)
    ensures Lossless(Overlapping(a, b, c, s, t), [RuleSet({s}, [a, b]), RuleSet({t}, [a, c])])
    ensures 3 <= |sets|
  {
    OverlappingInTwo(a, b, c, s, t);
    ThreeSets(a, b, c, s, t, sets);
  }

  /** That input has no three independent pairs. */
  lemma OverlappingHasTwoIndependent(a: Rule, b: Rule, c: Rule, s: string, t: string, ps: seq<Pair>)
    requires a != b && b != c && a != c && s != t
    requires Independent(Overlapping(a, b, c, s, t), ps)
    ensures |ps| <= 2
  {
    var two := [RuleSet({s}, [a, b]), RuleSet({t}, [a, c])];
    OverlappingInTwo(a, b, c, s, t);
    PairsNeedSets(Overlapping(a, b, c, s, t), ps, two);
  }

  lemma ThreeSets(a: Rule, b: Rule, c: Rule, s: string, t: string, sets: seq<RuleSet>)
    requires a != b && b != c && a != c && s != t
    requires Grouped(Overlapping(a, b, c, s, t), sets)
    ensures 3 <= |sets|
  {
    hide Rules, Support, Overlapping;
    OverlappingSupports(a, b, c, s, t);
    assert Covered(sets, a) && Covered(sets, b) && Covered(sets, c);
    var i :| 0 <= i < |sets| && a in sets[i].rules;
    var j :| 0 <= j < |sets| && b in sets[j].rules;
    var k :| 0 <= k < |sets| && c in sets[k].rules;
    assert sets[i].targets == {s, t} && sets[j].targets == {s} && sets[k].targets == {t};
    assert t !in {s} && s !in {t};
  }

  // ---- Naming ----

  const CIM_SET_NAME: string := "Helpdesk/CIM Files"

  predicate IsAlnum(c: char) {
    '0' <= c <= '9' || 'A' <= c <= 'Z' || 'a' <= c <= 'z'
  }

  /** `t` is a maximal alphanumeric run of the regex, at least three characters long, with a letter in it. */
  ghost predicate IsToken(regex: string, t: string) {
    && 3 <= |t| && (exists k | 0 <= k < |t| :: !('0' <= t[k] <= '9'))
    && (forall k | 0 <= k < |t| :: IsAlnum(t[k]))
    && exists i | 0 <= i <= |regex| - |t| :: RunAt(regex, t, i)
  }

  predicate RunAt(regex: string, t: string, i: nat)
    requires i <= |regex| - |t|
  {
    && regex[i..i + |t|] == t
    && (i == 0 || !IsAlnum(regex[i - 1])) && (i + |t| == |regex| || !IsAlnum(regex[i + |t|]))
  }

  ghost predicate CanName(rules: seq<Rule>, base: string) {
    base == "shared" || exists r | r in rules :: IsToken(r.regex, base)
  }

  /** The names tried in turn: the base itself, then numbered from 2. */
  function Candidate(base: string, i: nat): string {
    if i <= 1 then base else base + "-" + Str(i)
  }

  lemma CandidatesSpelled(base: string)
    ensures Candidate(base, 1) == base && Candidate(base, 2) == base + "-2" && Candidate(base, 10) == base + "-10"
  {
    StrUnfolds(2);
    StrUnfolds(10);
    StrUnfolds(1);
    hide Str;
    assert base + "-" + "2" == base + "-2" && base + "-" + "10" == base + "-10";
  }

  lemma CandidatesDiffer(base: string, i: nat, j: nat)
    requires 1 <= i < j
    ensures Candidate(base, i) != Candidate(base, j)
  {
    hide Str;
    if Str(i) == Str(j) { StrInjective(i, j); }
    var n := |base + "-"|;
    assert Candidate(base, j)[n..] == Str(j);
    if 2 <= i {
      assert Candidate(base, i)[n..] == Str(i);
    }
  }

  /** The loop of `name_for` ends, at the first candidate that is free. */
  method NameFor(base: string, used: set<string>) returns (name: string, i: nat)
    ensures 1 <= i && name == Candidate(base, i) && name !in used
    ensures forall k | 1 <= k < i :: Candidate(base, k) in used
  {
    name, i := base, 1;
    ghost var tried: set<string> := {};
    while name in used
      invariant 1 <= i && name == Candidate(base, i)
      invariant forall k | 1 <= k < i :: Candidate(base, k) in used
      invariant forall t | t in tried :: exists k | 1 <= k < i :: t == Candidate(base, k)
      decreases used - tried
    {
      if name in tried {
        var k :| 1 <= k < i && name == Candidate(base, k);
        CandidatesDiffer(base, k, i);
        assert false;
      }
      assert used - (tried + {name}) < used - tried by { assert name in used - tried; }
      tried := tried + {name};
      i := i + 1;
      name := base + "-" + Str(i);
    }
  }

  datatype Assign = Assign(modalityWide: bool, products: set<string>, families: set<string>)

  datatype NamedSet = NamedSet(name: string, rules: seq<Rule>, assign: Assign)

  function AssignTo(familyBased: bool, targets: set<string>): Assign {
    if familyBased then Assign(false, {}, targets) else Assign(false, targets, {})
  }

  ghost predicate BlockOf(sets: seq<RuleSet>, familyBased: bool, block: seq<NamedSet>) {
    && |block| == |sets|
    && forall i | 0 <= i < |sets| ::
         block[i].rules == sets[i].rules && block[i].assign == AssignTo(familyBased, sets[i].targets)
  }

  ghost predicate FreshNames(block: seq<NamedSet>) {
    && (forall i, j | 0 <= i < j < |block| :: block[i].name != block[j].name)
    && (forall i | 0 <= i < |block| :: '/' !in block[i].name)
  }

  lemma NoSlash(rules: seq<Rule>, base: string, i: nat)
    requires CanName(rules, base)
    ensures '/' !in Candidate(base, i)
  {
    assert '/' !in base;
    forall c | c in Str(i)
      ensures c != '/'
    {
      StrHasDigits(i, c);
    }
  }

  /** Sets are named in turn; `bases` are the names the token heuristic suggests. */
  method NameSets(sets: seq<RuleSet>, bases: seq<string>, familyBased: bool) returns (block: seq<NamedSet>)
    requires |bases| == |sets| && forall i | 0 <= i < |sets| :: CanName(sets[i].rules, bases[i])
    ensures BlockOf(sets, familyBased, block) && FreshNames(block)
  {
    hide CanName;
    block := [];
    var used: set<string> := {};
    for n := 0 to |sets|
      invariant BlockOf(sets[..n], familyBased, block) && FreshNames(block)
      invariant forall i | 0 <= i < |block| :: block[i].name in used
    {
      var name, i := NameFor(bases[n], used);
      NoSlash(sets[n].rules, bases[n], i);
      used := used + {name};
      block := block + [NamedSet(name, sets[n].rules, AssignTo(familyBased, sets[n].targets))];
    }
  }

  // ---- The modality-wide set ----

  function WithoutCim(block: seq<NamedSet>): seq<NamedSet> {
    if block == [] then []
    else (if block[0].name != CIM_SET_NAME then [block[0]] else []) + WithoutCim(block[1..])
  }

  /** An earlier modality-wide set is replaced. */
  function WithCim(block: seq<NamedSet>, rules: seq<Rule>): seq<NamedSet> {
    WithoutCim(block) + [NamedSet(CIM_SET_NAME, rules, Assign(true, {}, {}))]
  }

  lemma {:induction false} CimKeepsTheRest(block: seq<NamedSet>, rules: seq<Rule>)
    requires FreshNames(block)
    ensures WithCim(block, rules) == block + [NamedSet(CIM_SET_NAME, rules, Assign(true, {}, {}))]
  {
    if block != [] {
      assert '/' in CIM_SET_NAME by { assert CIM_SET_NAME[8] == '/'; }
      CimKeepsTheRest(block[1..], rules);
      var last := [NamedSet(CIM_SET_NAME, rules, Assign(true, {}, {}))];
      assert WithoutCim(block[1..]) == WithCim(block[1..], rules)[..|block| - 1] == block[1..];
      assert WithoutCim(block) == block;
    }
  }

  lemma {:induction false} WithoutCimAgain(block: seq<NamedSet>, last: NamedSet)
    requires last.name == CIM_SET_NAME
    ensures WithoutCim(WithoutCim(block) + [last]) == WithoutCim(block)
  {
    var kept := WithoutCim(block) + [last];
    if block == [] {
      assert kept == [last] && kept[1..] == [];
    } else {
      WithoutCimAgain(block[1..], last);
      if block[0].name != CIM_SET_NAME {
        assert kept == [block[0]] + (WithoutCim(block[1..]) + [last]);
        assert kept[1..] == WithoutCim(block[1..]) + [last];
      } else {
        assert WithoutCim(block) == WithoutCim(block[1..]);
      }
    }
  }

  /** Adding the modality-wide set again replaces it and touches nothing else. */
  lemma CimIsIdempotent(block: seq<NamedSet>, before: seq<Rule>, after: seq<Rule>)
    ensures WithCim(WithCim(block, before), after) == WithCim(block, after)
  {
    WithoutCimAgain(block, NamedSet(CIM_SET_NAME, before, Assign(true, {}, {})));
  }
}
