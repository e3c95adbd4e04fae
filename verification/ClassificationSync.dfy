/** Loading the named rule sets into tables, resolving them per product, and writing the result to the store. */
module ClassificationSync {
  import opened Wrappers
  import opened Classification
  import opened Text

  datatype Product = Product(id: nat, name: string, family: Option<string>)

  datatype RuleRow = RuleRow(setId: nat, regex: string, codes: set<Code>)

  /** Neither product nor family: the set applies to the whole modality. */
  datatype AssignRow = AssignRow(setId: nat, product: Option<nat>, family: Option<string>)

  function Get<K, V>(m: map<K, set<V>>, k: K): set<V> {
    if k in m then m[k] else {}
  }

  // ---- Loading by name ----

  /** The first product with a name owns it. */
  function ByName(products: seq<Product>): map<string, nat> {
    if products == [] then map[]
    else
      var m, p := ByName(products[..|products| - 1]), products[|products| - 1];
      if p.name in m then m else m[p.name := p.id]
  }

  ghost predicate FirstNamed(products: seq<Product>, k: nat) {
    k < |products| && forall j | 0 <= j < k :: products[j].name != products[k].name
  }

  predicate DistinctIds(products: seq<Product>) {
    forall i, j | 0 <= i < j < |products| :: products[i].id != products[j].id
  }

  lemma {:induction false} ByNameIs(products: seq<Product>, k: nat)
    requires k < |products|
    ensures products[k].name in ByName(products)
    ensures DistinctIds(products) ==> (ByName(products)[products[k].name] == products[k].id <==> FirstNamed(products, k))
  {
    var n := |products| - 1;
    var front := products[..n];
    NamesComeFrom(front);
    if k < n {
      ByNameIs(front, k);
      assert FirstNamed(products, k) <==> FirstNamed(front, k);
    } else if products[n].name in ByName(front) {
      var j :| 0 <= j < n && front[j].name == products[n].name && ByName(front)[products[n].name] == front[j].id;
      assert products[j].name == products[k].name;
    } else {
      forall j | 0 <= j < n
        ensures products[j].name != products[n].name
      {
        ByNameIs(front, j);
        assert front[j] == products[j];
      }
    }
  }

  lemma {:induction false} NamesComeFrom(products: seq<Product>)
    ensures forall name | name in ByName(products) ::
              exists j | 0 <= j < |products| :: products[j].name == name && ByName(products)[name] == products[j].id
  {
    if products != [] {
      var n := |products| - 1;
      NamesComeFrom(products[..n]);
      forall name | name in ByName(products)
        ensures exists j | 0 <= j < |products| :: products[j].name == name && ByName(products)[name] == products[j].id
      {
        if name in ByName(products[..n]) {
          var j :| 0 <= j < n && products[..n][j].name == name && ByName(products[..n])[name] == products[..n][j].id;
          assert products[j].name == name;
        } else {
          assert products[n].name == name;
        }
      }
    }
  }

  function Row(setId: nat, r: Rule): RuleRow {
    RuleRow(setId, r.regex, set c | c in r.codes)
  }

  ghost predicate RuleRowOf(block: seq<NamedSet>, row: RuleRow) {
    row.setId < |block| && exists r | r in block[row.setId].rules :: row == Row(row.setId, r)
  }

  /** Names that no product of the modality has are passed over. */
  function Ids(names: set<string>, byName: map<string, nat>): set<nat> {
    set name | name in names && name in byName :: byName[name]
  }

  predicate Assigns(a: Assign, byName: map<string, nat>, row: AssignRow) {
    match (row.product, row.family)
    case (None, None) => a.modalityWide
    case (None, Some(f)) => f in a.families
    case (Some(id), None) => id in Ids(a.products, byName)
    case (Some(_), Some(_)) => false
  }

  ghost predicate AssignRowOf(block: seq<NamedSet>, byName: map<string, nat>, row: AssignRow) {
    row.setId < |block| && Assigns(block[row.setId].assign, byName, row)
  }

  ghost predicate Loaded(products: seq<Product>, block: seq<NamedSet>, rules: seq<RuleRow>, assigns: seq<AssignRow>) {
    && (forall row :: row in rules <==> RuleRowOf(block, row))
    && (forall row :: row in assigns <==> AssignRowOf(block, ByName(products), row))
  }

  method IndexByName(products: seq<Product>) returns (byName: map<string, nat>)
    ensures byName == ByName(products)
  {
    byName := map[];
    for i := 0 to |products|
      invariant byName == ByName(products[..i])
    {
      assert products[..i + 1][..i] == products[..i];
      if products[i].name !in byName {
        byName := byName[products[i].name := products[i].id];
      }
    }
    assert products[..|products|] == products;
  }

  method RuleRows(setId: nat, rules: seq<Rule>) returns (rows: seq<RuleRow>)
    ensures forall row :: row in rows <==> exists r | r in rules :: row == Row(setId, r)
  {
    rows := [];
    for k := 0 to |rules|
      invariant |rows| == k && forall j | 0 <= j < k :: rows[j] == Row(setId, rules[j])
    {
      rows := rows + [Row(setId, rules[k])];
    }
    forall r | r in rules
      ensures Row(setId, r) in rows
    {
      var k :| 0 <= k < |rules| && rules[k] == r;
      assert rows[k] == Row(setId, r);
    }
  }

  method AssignRows(setId: nat, a: Assign, byName: map<string, nat>) returns (rows: seq<AssignRow>)
    ensures forall row :: row in rows <==> row.setId == setId && Assigns(a, byName, row)
  {
    rows := if a.modalityWide then [AssignRow(setId, None, None)] else [];
    var families := a.families;
    while families != {}
      invariant families <= a.families
      invariant forall row :: row in rows <==> row.setId == setId && row.product.None? &&
                                               if row.family.None? then a.modalityWide else row.family.value in a.families - families
      decreases |families|
    {
      var f :| f in families;
      families := families - {f};
      rows := rows + [AssignRow(setId, None, Some(f))];
    }
    rows := AssignProducts(setId, a, byName, rows);
  }

  lemma IdsOneMore(names: set<string>, byName: map<string, nat>, name: string)
    ensures Ids(names + {name}, byName) == Ids(names, byName) + if name in byName then {byName[name]} else {}
  {}

  /** Rows for products come after the others. */
  ghost predicate ProductRows(rows: seq<AssignRow>, first: seq<AssignRow>, setId: nat, ids: set<nat>) {
    forall row: AssignRow ::
      row in rows <==> if row.product.None? then row in first
                       else row.setId == setId && row.family.None? && row.product.value in ids
  }

  lemma OneMoreRow(rows: seq<AssignRow>, first: seq<AssignRow>, setId: nat, ids: set<nat>, id: nat)
    requires ProductRows(rows, first, setId, ids) && forall row | row in first :: row.product.None?
    ensures ProductRows(rows + [AssignRow(setId, Some(id), None)], first, setId, ids + {id})
  {
    var more := rows + [AssignRow(setId, Some(id), None)];
    forall row: AssignRow
      ensures row in more <==> if row.product.None? then row in first
                               else row.setId == setId && row.family.None? && row.product.value in ids + {id}
    {
      assert row in more <==> row in rows || row == AssignRow(setId, Some(id), None);
    }
  }

  function RowsFor(setId: nat, byName: map<string, nat>, name: string): seq<AssignRow> {
    if name in byName then [AssignRow(setId, Some(byName[name]), None)] else []
  }

  /** One product name of the assignment. */
  lemma OneMoreName(rows: seq<AssignRow>, first: seq<AssignRow>, setId: nat, byName: map<string, nat>, done: set<string>, name: string)
    requires ProductRows(rows, first, setId, Ids(done, byName)) && forall row | row in first :: row.product.None?
    ensures ProductRows(rows + RowsFor(setId, byName, name), first, setId, Ids(done + {name}, byName))
  {
    IdsOneMore(done, byName, name);
    hide Ids, ProductRows;
    if name in byName {
      OneMoreRow(rows, first, setId, Ids(done, byName), byName[name]);
    } else {
      assert rows + [] == rows && Ids(done, byName) + {} == Ids(done, byName);
    }
  }

  lemma NoNames(first: seq<AssignRow>, setId: nat, byName: map<string, nat>)
    requires forall row | row in first :: row.product.None?
    ensures ProductRows(first, first, setId, Ids({}, byName))
  {}

  method AssignProducts(setId: nat, a: Assign, byName: map<string, nat>, first: seq<AssignRow>) returns (rows: seq<AssignRow>)
    requires forall row | row in first :: row.product.None?
    ensures ProductRows(rows, first, setId, Ids(a.products, byName))
  {
    rows := first;
    var left := a.products;
    ghost var done: set<string> := {};
    NoNames(first, setId, byName);
    hide *;
    while left != {}
      invariant done + left == a.products && ProductRows(rows, first, setId, Ids(done, byName))
      decreases |left|
    {
      var name :| name in left;
      OneMoreName(rows, first, setId, byName, done, name);
      rows := rows + RowsFor(setId, byName, name);
      done, left := done + {name}, left - {name};
    }
    assert done == a.products;
  }

  /** The classification tables of one modality. */
  class Tables {
    var rules: seq<RuleRow>
    var assigns: seq<AssignRow>

    constructor ()
    {
      rules, assigns := [], [];
    }

    /** `stage_classification` for one modality; set identifiers are fresh. */
    method StageClassification(products: seq<Product>, block: seq<NamedSet>)
      modifies this
      ensures Loaded(products, block, rules, assigns)
    {
      var byName := IndexByName(products);
      rules, assigns := [], [];
      hide Assigns;
      for i := 0 to |block|
        invariant forall row :: row in rules <==> RuleRowOf(block[..i], row)
        invariant forall row :: row in assigns <==> AssignRowOf(block[..i], byName, row)
      {
        var more := RuleRows(i, block[i].rules);
        var mine := AssignRows(i, block[i].assign, byName);
        rules := rules + more;
        assigns := assigns + mine;
      }
      assert block[..|block|] == block;
    }
  }

  // ---- Resolving per product ----

  function OrderCodes(codes: set<Code>): seq<Code> {
    Ordered(CLASS_ORDER, codes)
  }

  function Ordered(order: seq<Code>, codes: set<Code>): seq<Code> {
    if order == [] then [] else (if order[0] in codes then [order[0]] else []) + Ordered(order[1..], codes)
  }

  lemma {:induction false} OrderedHas(order: seq<Code>, codes: set<Code>, c: Code)
    ensures c in Ordered(order, codes) <==> c in order && c in codes
  {
    if order != [] {
      OrderedHas(order[1..], codes, c);
    }
  }

  /** The codes stand in the order of the canonical list, each once. */
  predicate InCanonicalOrder(codes: seq<Code>) {
    forall i, j | 0 <= i < j < |codes| :: Before(codes[i], codes[j])
  }

  /** One code comes before the other in the canonical list. */
  predicate Before(a: Code, b: Code) {
    exists k, l | 0 <= k < l < |CLASS_ORDER| :: CLASS_ORDER[k] == a && CLASS_ORDER[l] == b
  }

  lemma {:induction false} OrderedStands(order: seq<Code>, codes: set<Code>, i: nat, j: nat) returns (k: nat, l: nat)
    requires i < j < |Ordered(order, codes)|
    ensures k < l < |order| && order[k] == Ordered(order, codes)[i] && order[l] == Ordered(order, codes)[j]
  {
    var rest := Ordered(order[1..], codes);
    if order[0] !in codes {
      assert Ordered(order, codes) == rest;
      k, l := OrderedStands(order[1..], codes, i, j);
      k, l := k + 1, l + 1;
    } else {
      assert Ordered(order, codes) == [order[0]] + rest;
      if i == 0 {
        OrderedHas(order[1..], codes, rest[j - 1]);
        var n: nat :| n < |order[1..]| && order[1..][n] == rest[j - 1];
        k, l := 0, n + 1;
      } else {
        k, l := OrderedStands(order[1..], codes, i - 1, j - 1);
        k, l := k + 1, l + 1;
      }
    }
  }

  lemma OrderCodesStand(codes: set<Code>)
    ensures InCanonicalOrder(OrderCodes(codes))
  {
    var ordered := OrderCodes(codes);
    hide Ordered;
    forall i, j | 0 <= i < j < |ordered|
      ensures Before(ordered[i], ordered[j])
    {
      var k, l := OrderedStands(CLASS_ORDER, codes, i, j);
    }
  }

  lemma BeforeIsStrict(a: Code, b: Code)
    ensures !(Before(a, b) && Before(b, a)) && !Before(a, a)
  {
    assert forall k, l | 0 <= k < |CLASS_ORDER| && 0 <= l < |CLASS_ORDER| && CLASS_ORDER[k] == CLASS_ORDER[l] :: k == l;
  }

  lemma RestHas(a: seq<Code>, b: seq<Code>, c: Code)
    requires InCanonicalOrder(a) && a != [] && b != [] && a[0] == b[0] && c in a[1..] && c in b
    ensures c in b[1..]
  {
    hide Before;
    var i :| 0 < i < |a| && a[i] == c;
    assert Before(a[0], a[i]);
    BeforeIsStrict(c, c);
    assert b == [b[0]] + b[1..];
  }

  lemma FirstOnes(a: seq<Code>, b: seq<Code>)
    requires InCanonicalOrder(a) && InCanonicalOrder(b) && a != [] && b != [] && a[0] in b && b[0] in a
    ensures a[0] == b[0]
  {
    hide Before;
    var i :| 0 <= i < |b| && b[i] == a[0];
    var j :| 0 <= j < |a| && a[j] == b[0];
    BeforeIsStrict(a[0], b[0]);
  }

  /** Membership and order leave no choice. */
  lemma {:induction false} OrderIsDetermined(a: seq<Code>, b: seq<Code>)
    requires InCanonicalOrder(a) && InCanonicalOrder(b) && forall c :: c in a <==> c in b
    ensures a == b
  {
    hide Before;
    assert a != [] ==> a[0] in b;
    assert b != [] ==> b[0] in a;
    if a != [] {
      FirstOnes(a, b);
      forall c
        ensures c in a[1..] <==> c in b[1..]
      {
        if c in a[1..] { RestHas(a, b, c); }
        if c in b[1..] { RestHas(b, a, c); }
      }
      OrderIsDetermined(a[1..], b[1..]);
    }
  }

  /** A family counts as absent when it is the empty string. */
  predicate Applies(a: AssignRow, p: Product) {
    if a.product.Some? then a.product.value == p.id
    else if a.family.Some? && a.family.value != "" then p.family == a.family
    else true
  }

  function Effective(assigns: seq<AssignRow>, p: Product): set<nat> {
    set a | a in assigns && Applies(a, p) :: a.setId
  }

  function Selected(rules: seq<RuleRow>, ids: set<nat>): set<RuleRow> {
    set r | r in rules && r.setId in ids
  }

  function Regexes(rows: set<RuleRow>): set<string> {
    set r | r in rows :: r.regex
  }

  function CodesOf(rows: set<RuleRow>, regex: string): set<Code> {
    set r, c | r in rows && r.regex == regex && c in r.codes :: c
  }

  /** Codes merged per regex, in canonical order. */
  function Fields(rows: set<RuleRow>): map<string, seq<Code>> {
    map regex | regex in Regexes(rows) :: OrderCodes(CodesOf(rows, regex))
  }

  function Resolved(rules: seq<RuleRow>, assigns: seq<AssignRow>, p: Product): map<string, seq<Code>> {
    Fields(Selected(rules, Effective(assigns, p)))
  }

  ghost predicate MergedAs(byRegex: map<string, set<Code>>, rows: set<RuleRow>) {
    byRegex.Keys == Regexes(rows) && forall regex | regex in byRegex :: byRegex[regex] == CodesOf(rows, regex)
  }

  lemma MergeOne(byRegex: map<string, set<Code>>, rows: set<RuleRow>, r: RuleRow)
    requires MergedAs(byRegex, rows)
    ensures MergedAs(byRegex[r.regex := Get(byRegex, r.regex) + r.codes], rows + {r})
  {
    assert Regexes(rows + {r}) == Regexes(rows) + {r.regex};
    forall regex
      ensures CodesOf(rows + {r}, regex) == CodesOf(rows, regex) + if regex == r.regex then r.codes else {}
    {}
    assert r.regex !in byRegex ==> CodesOf(rows, r.regex) == {};
  }

  ghost predicate IndexedBySet(bySet: map<nat, seq<RuleRow>>, rules: seq<RuleRow>) {
    forall r :: r in rules <==> r.setId in bySet && r in bySet[r.setId]
  }

  ghost predicate OwnRows(bySet: map<nat, seq<RuleRow>>) {
    forall id, r | id in bySet && r in bySet[id] :: r.setId == id
  }

  method IndexRules(rules: seq<RuleRow>) returns (bySet: map<nat, seq<RuleRow>>)
    ensures IndexedBySet(bySet, rules) && OwnRows(bySet)
  {
    bySet := map[];
    for i := 0 to |rules|
      invariant IndexedBySet(bySet, rules[..i]) && OwnRows(bySet)
    {
      var r := rules[i];
      assert rules[..i + 1] == rules[..i] + [r];
      bySet := bySet[r.setId := (if r.setId in bySet then bySet[r.setId] else []) + [r]];
    }
    assert rules[..|rules|] == rules;
  }

  predicate IsWide(a: AssignRow) {
    a.product.None? && (a.family.None? || a.family.value == "")
  }

  function Wide(assigns: seq<AssignRow>): set<nat> {
    set a | a in assigns && IsWide(a) :: a.setId
  }

  function ForProduct(assigns: seq<AssignRow>, id: nat): set<nat> {
    set a | a in assigns && a.product == Some(id) :: a.setId
  }

  function ForFamily(assigns: seq<AssignRow>, f: string): set<nat> {
    set a | a in assigns && a.product.None? && a.family == Some(f) :: a.setId
  }

  lemma EffectiveParts(assigns: seq<AssignRow>, p: Product)
    ensures Effective(assigns, p) ==
            Wide(assigns) + ForProduct(assigns, p.id) +
            if p.family.Some? && p.family.value != "" then ForFamily(assigns, p.family.value) else {}
  {}

  lemma AssignOne(assigns: seq<AssignRow>, a: AssignRow)
    ensures Wide(assigns + [a]) == Wide(assigns) + if IsWide(a) then {a.setId} else {}
    ensures forall id: nat :: ForProduct(assigns + [a], id) == ForProduct(assigns, id) + if a.product == Some(id) then {a.setId} else {}
    ensures forall f :: ForFamily(assigns + [a], f) ==
                        ForFamily(assigns, f) + if a.product.None? && a.family == Some(f) then {a.setId} else {}
  {}

  method IndexAssigns(assigns: seq<AssignRow>)
    returns (wide: set<nat>, byProduct: map<nat, set<nat>>, byFamily: map<string, set<nat>>)
    ensures wide == Wide(assigns)
    ensures forall id: nat :: Get(byProduct, id) == ForProduct(assigns, id)
    ensures forall f | f != "" :: Get(byFamily, f) == ForFamily(assigns, f)
  {
    wide, byProduct, byFamily := {}, map[], map[];
    for i := 0 to |assigns|
      invariant wide == Wide(assigns[..i])
      invariant forall id: nat :: Get(byProduct, id) == ForProduct(assigns[..i], id)
      invariant forall f | f != "" :: Get(byFamily, f) == ForFamily(assigns[..i], f)
    {
      var a := assigns[i];
      assert assigns[..i + 1] == assigns[..i] + [a];
      AssignOne(assigns[..i], a);
      hide Wide, ForProduct, ForFamily;
      if a.product.Some? {
        byProduct := byProduct[a.product.value := Get(byProduct, a.product.value) + {a.setId}];
      } else if a.family.Some? && a.family.value != "" {
        byFamily := byFamily[a.family.value := Get(byFamily, a.family.value) + {a.setId}];
      } else {
        wide := wide + {a.setId};
      }
    }
    assert assigns[..|assigns|] == assigns;
  }

  function AsSet(rows: seq<RuleRow>): set<RuleRow> {
    set r | r in rows
  }

  /** The merge loop over one set's rules. */
  method MergeRows(byRegex: map<string, set<Code>>, rows: seq<RuleRow>, ghost seen: set<RuleRow>)
    returns (merged: map<string, set<Code>>)
    requires MergedAs(byRegex, seen)
    ensures MergedAs(merged, seen + AsSet(rows))
  {
    merged := byRegex;
    hide MergedAs;
    assert seen + AsSet(rows[..0]) == seen;
    for k := 0 to |rows|
      invariant MergedAs(merged, seen + AsSet(rows[..k]))
    {
      MergeOne(merged, seen + AsSet(rows[..k]), rows[k]);
      assert (seen + AsSet(rows[..k])) + {rows[k]} == seen + AsSet(rows[..k + 1]);
      merged := merged[rows[k].regex := Get(merged, rows[k].regex) + rows[k].codes];
    }
    assert rows[..|rows|] == rows;
  }

  method MergeSets(bySet: map<nat, seq<RuleRow>>, ids: set<nat>, ghost rules: seq<RuleRow>)
    returns (byRegex: map<string, set<Code>>)
    requires IndexedBySet(bySet, rules) && OwnRows(bySet)
    ensures MergedAs(byRegex, Selected(rules, ids))
  {
    byRegex := map[];
    var todo := ids;
    assert ids - ids == {} && Selected(rules, {}) == {};
    assert MergedAs(byRegex, {});
    hide MergedAs;
    while todo != {}
      invariant todo <= ids && MergedAs(byRegex, Selected(rules, ids - todo))
      decreases |todo|
    {
      var id :| id in todo;
      var rows := if id in bySet then bySet[id] else [];
      byRegex := MergeRows(byRegex, rows, Selected(rules, ids - todo));
      assert Selected(rules, ids - todo) + AsSet(rows) == Selected(rules, ids - (todo - {id}));
      todo := todo - {id};
    }
    assert ids - {} == ids;
  }

  method OrderAll(byRegex: map<string, set<Code>>) returns (fields: map<string, seq<Code>>)
    ensures fields == map regex | regex in byRegex :: OrderCodes(byRegex[regex])
  {
    fields := map[];
    var todo := byRegex.Keys;
    while todo != {}
      invariant todo <= byRegex.Keys && fields == map regex | regex in byRegex && regex !in todo :: OrderCodes(byRegex[regex])
      decreases |todo|
    {
      var regex :| regex in todo;
      fields := fields[regex := OrderCodes(byRegex[regex])];
      todo := todo - {regex};
    }
  }

  method ResolveProduct(p: Product, bySet: map<nat, seq<RuleRow>>, ids: set<nat>, ghost rules: seq<RuleRow>)
    returns (fields: map<string, seq<Code>>)
    requires IndexedBySet(bySet, rules) && OwnRows(bySet)
    ensures fields == Fields(Selected(rules, ids))
  {
    hide IndexedBySet, OwnRows, Selected, Regexes, CodesOf, OrderCodes;
    var byRegex := MergeSets(bySet, ids, rules);
    fields := OrderAll(byRegex);
  }

  method ResolveModality(products: seq<Product>, rules: seq<RuleRow>, assigns: seq<AssignRow>)
    returns (resolved: seq<map<string, seq<Code>>>)
    ensures |resolved| == |products|
    ensures forall i | 0 <= i < |products| :: resolved[i] == Resolved(rules, assigns, products[i])
    ensures forall i, regex | 0 <= i < |products| && regex in resolved[i] :: InCanonicalOrder(resolved[i][regex])
  {
    hide Fields, Effective, Wide, ForProduct, ForFamily, Selected, IndexedBySet, OwnRows, Get;
    var bySet := IndexRules(rules);
    var wide, byProduct, byFamily := IndexAssigns(assigns);
    resolved := [];
    for i := 0 to |products|
      invariant |resolved| == i
      invariant forall j | 0 <= j < i :: resolved[j] == Resolved(rules, assigns, products[j])
    {
      var p := products[i];
      var ids := wide + Get(byProduct, p.id);
      if p.family.Some? && p.family.value != "" {
        ids := ids + Get(byFamily, p.family.value);
      }
      EffectiveParts(assigns, p);
      assert ids == Effective(assigns, p);
      var fields := ResolveProduct(p, bySet, ids, rules);
      resolved := resolved + [fields];
    }
    forall i, regex | 0 <= i < |products| && regex in resolved[i]
      ensures InCanonicalOrder(resolved[i][regex])
    {
      ResolvedInOrder(rules, assigns, products[i], regex);
    }
  }

  lemma ResolvedInOrder(rules: seq<RuleRow>, assigns: seq<AssignRow>, p: Product, regex: string)
    requires regex in Resolved(rules, assigns, p)
    ensures InCanonicalOrder(Resolved(rules, assigns, p)[regex])
  {
    OrderCodesStand(CodesOf(Selected(rules, Effective(assigns, p)), regex));
    hide Selected, Effective, CodesOf, Regexes, OrderCodes, InCanonicalOrder;
  }

  // ---- Factoring, loading and resolving together ----

  /** The input row is meant for this product. */
  ghost predicate Meant(familyBased: bool, products: seq<Product>, target: string, k: nat)
    requires k < |products|
  {
    if familyBased then products[k].family == Some(target)
    else products[k].name == target && FirstNamed(products, k)
  }

  ghost predicate MeantRule(pairs: seq<Pair>, cim: seq<Rule>, familyBased: bool, products: seq<Product>, k: nat, r: Rule)
    requires k < |products|
  {
    r in cim || exists target :: Pair(target, r) in pairs && Meant(familyBased, products, target, k)
  }

  lemma AppliesMeansMeant(sets: seq<RuleSet>, familyBased: bool, products: seq<Product>, k: nat, i: nat, assign: Assign)
    requires k < |products| && DistinctIds(products) && i < |sets| && assign == AssignTo(familyBased, sets[i].targets)
    requires "" !in sets[i].targets
    ensures (exists a: AssignRow :: a.setId == i && Assigns(assign, ByName(products), a) && Applies(a, products[k])) <==>
            exists target :: target in sets[i].targets && Meant(familyBased, products, target, k)
  {
    var p := products[k];
    ByNameIs(products, k);
    if familyBased {
      if p.family.Some? && p.family.value in sets[i].targets {
        var a := AssignRow(i, None, p.family);
        assert Assigns(assign, ByName(products), a) && Applies(a, p);
        assert Meant(familyBased, products, p.family.value, k);
      }
    } else if p.name in sets[i].targets && FirstNamed(products, k) {
      var a := AssignRow(i, Some(p.id), None);
      assert Assigns(assign, ByName(products), a) && Applies(a, p);
      assert Meant(familyBased, products, p.name, k);
    } else if exists a: AssignRow :: a.setId == i && Assigns(assign, ByName(products), a) && Applies(a, p) {
      NameOfId(products, sets[i].targets, k);
    }
  }

  /** An identifier found under one of the names is the product's own, found under its own name. */
  lemma NameOfId(products: seq<Product>, names: set<string>, k: nat)
    requires k < |products| && DistinctIds(products) && products[k].id in Ids(names, ByName(products))
    ensures products[k].name in names && FirstNamed(products, k)
  {
    var name :| name in names && name in ByName(products) && ByName(products)[name] == products[k].id;
    NamesComeFrom(products);
    var j :| 0 <= j < |products| && products[j].name == name && ByName(products)[name] == products[j].id;
    assert j == k;
    ByNameIs(products, k);
  }

  /** The modality-wide rules; a modality need not have a set of them. */
  function WideRules(cim: Option<seq<Rule>>): seq<Rule> {
    GetOr(cim, [])
  }

  function WideSet(rules: seq<Rule>): NamedSet {
    NamedSet(CIM_SET_NAME, rules, Assign(true, {}, {}))
  }

  /** What is imported: factored sets, and after them the modality-wide set if there is one. */
  ghost predicate Imported(pairs: seq<Pair>, cim: Option<seq<Rule>>, familyBased: bool, sets: seq<RuleSet>, block: seq<NamedSet>) {
    && Grouped(pairs, sets) && (forall p | p in pairs :: p.target != "")
    && |block| == |sets| + (if cim.Some? then 1 else 0) && BlockOf(sets, familyBased, block[..|sets|])
    && (cim.Some? ==> block[|sets|] == WideSet(cim.value))
  }

  /** The artifact's sets of one modality. */
  function BlockWith(named: seq<NamedSet>, cim: Option<seq<Rule>>): seq<NamedSet> {
    if cim.Some? then WithCim(named, cim.value) else named
  }

  /** Factoring, naming and adding the modality-wide set, if there is one, give what is imported. */
  lemma NamedIsImported(pairs: seq<Pair>, cim: Option<seq<Rule>>, familyBased: bool, sets: seq<RuleSet>, named: seq<NamedSet>)
    requires Grouped(pairs, sets) && (forall p | p in pairs :: p.target != "")
    requires BlockOf(sets, familyBased, named) && FreshNames(named)
    ensures Imported(pairs, cim, familyBased, sets, BlockWith(named, cim))
  {
    hide Grouped;
    if cim.Some? {
      CimKeepsTheRest(named, cim.value);
      assert BlockWith(named, cim)[..|sets|] == named;
    } else {
      assert named[..|sets|] == named;
    }
  }

  lemma TargetsNamed(pairs: seq<Pair>, sets: seq<RuleSet>, i: nat)
    requires Grouped(pairs, sets) && (forall p | p in pairs :: p.target != "") && i < |sets|
    ensures "" !in sets[i].targets
  {
    assert sets[i].rules[0] in sets[i].rules;
    assert sets[i].targets == Support(pairs, sets[i].rules[0]);
  }

  lemma EffectiveIs(pairs: seq<Pair>, cim: Option<seq<Rule>>, familyBased: bool, sets: seq<RuleSet>, block: seq<NamedSet>,
                    products: seq<Product>, rules: seq<RuleRow>, assigns: seq<AssignRow>, k: nat, i: nat)
    requires Imported(pairs, cim, familyBased, sets, block) && Loaded(products, block, rules, assigns)
    requires k < |products| && DistinctIds(products) && i < |block|
    ensures i in Effective(assigns, products[k]) <==>
            i == |sets| || exists target :: target in sets[i].targets && Meant(familyBased, products, target, k)
  {
    if i == |sets| {
      hide Imported, Grouped;
      var a := AssignRow(i, None, None);
      assert AssignRowOf(block, ByName(products), a) && Applies(a, products[k]);
    } else {
      TargetsNamed(pairs, sets, i);
      assert block[i].assign == block[..|sets|][i].assign == AssignTo(familyBased, sets[i].targets);
      AppliesMeansMeant(sets, familyBased, products, k, i, block[i].assign);
      hide Imported, Grouped, Applies, Assigns, Meant, ByName;
      forall a: AssignRow | a.setId == i
        ensures a in assigns <==> Assigns(block[i].assign, ByName(products), a)
      {
        assert a in assigns <==> AssignRowOf(block, ByName(products), a);
      }
    }
  }

  lemma RuleGivesRow(pairs: seq<Pair>, cim: Option<seq<Rule>>, familyBased: bool, sets: seq<RuleSet>, block: seq<NamedSet>,
                     products: seq<Product>, rules: seq<RuleRow>, assigns: seq<AssignRow>, k: nat, r: Rule) returns (row: RuleRow)
    requires Imported(pairs, cim, familyBased, sets, block) && Loaded(products, block, rules, assigns)
    requires k < |products| && DistinctIds(products) && MeantRule(pairs, WideRules(cim), familyBased, products, k, r)
    ensures row in Selected(rules, Effective(assigns, products[k])) && row == Row(row.setId, r)
  {
    var i: nat := |sets|;
    if r !in WideRules(cim) {
      var target :| Pair(target, r) in pairs && Meant(familyBased, products, target, k);
      DeliveredIff(pairs, sets, target, r);
      i :| 0 <= i < |sets| && r in sets[i].rules && target in sets[i].targets;
      assert block[i].rules == block[..|sets|][i].rules;
    }
    EffectiveIs(pairs, cim, familyBased, sets, block, products, rules, assigns, k, i);
    row := Row(i, r);
    assert RuleRowOf(block, row);
  }

  lemma RowComesFromRule(pairs: seq<Pair>, cim: Option<seq<Rule>>, familyBased: bool, sets: seq<RuleSet>, block: seq<NamedSet>,
                         products: seq<Product>, rules: seq<RuleRow>, assigns: seq<AssignRow>, k: nat, row: RuleRow) returns (r: Rule)
    requires Imported(pairs, cim, familyBased, sets, block) && Loaded(products, block, rules, assigns)
    requires k < |products| && DistinctIds(products) && row in Selected(rules, Effective(assigns, products[k]))
    ensures MeantRule(pairs, WideRules(cim), familyBased, products, k, r) && row == Row(row.setId, r)
  {
    var i := row.setId;
    assert RuleRowOf(block, row);
    r :| r in block[i].rules && row == Row(i, r);
    EffectiveIs(pairs, cim, familyBased, sets, block, products, rules, assigns, k, i);
    if i < |sets| {
      var target :| target in sets[i].targets && Meant(familyBased, products, target, k);
      assert block[i].rules == block[..|sets|][i].rules;
      assert Delivers(sets, target, r);
      DeliveredIff(pairs, sets, target, r);
    }
  }

  function AllRules(pairs: seq<Pair>, cim: seq<Rule>): set<Rule> {
    Rules(pairs) + set r | r in cim
  }

  /** All codes the input pairs with this regex for product `k`, itself, its family or its whole modality. */
  ghost function InputCodes(pairs: seq<Pair>, cim: seq<Rule>, familyBased: bool, products: seq<Product>, k: nat,
                            regex: string): set<Code>
    requires k < |products|
  {
    set r, c | r in AllRules(pairs, cim) && MeantRule(pairs, cim, familyBased, products, k, r)
               && r.regex == regex && c in r.codes :: c
  }

  ghost function InputRegexes(pairs: seq<Pair>, cim: seq<Rule>, familyBased: bool, products: seq<Product>, k: nat): set<string>
    requires k < |products|
  {
    set r | r in AllRules(pairs, cim) && MeantRule(pairs, cim, familyBased, products, k, r) :: r.regex
  }

  lemma MeantIsInput(pairs: seq<Pair>, cim: seq<Rule>, familyBased: bool, products: seq<Product>, k: nat, r: Rule)
    requires k < |products| && MeantRule(pairs, cim, familyBased, products, k, r)
    ensures r in AllRules(pairs, cim)
  {
    if r !in cim {
      var target :| Pair(target, r) in pairs && Meant(familyBased, products, target, k);
      assert Pair(target, r).rule in Rules(pairs);
    }
  }

  lemma SameRegexes(pairs: seq<Pair>, cim: Option<seq<Rule>>, familyBased: bool, sets: seq<RuleSet>, block: seq<NamedSet>,
                   products: seq<Product>, rules: seq<RuleRow>, assigns: seq<AssignRow>, k: nat, regex: string)
    requires Imported(pairs, cim, familyBased, sets, block) && Loaded(products, block, rules, assigns)
    requires k < |products| && DistinctIds(products)
    ensures var rows := Selected(rules, Effective(assigns, products[k]));
      regex in Regexes(rows) <==> regex in InputRegexes(pairs, WideRules(cim), familyBased, products, k)
  {
    var rows := Selected(rules, Effective(assigns, products[k]));
    hide Imported, Loaded, MeantRule, Selected, Effective, AllRules;
    if regex in Regexes(rows) {
      var row :| row in rows && row.regex == regex;
      var r := RowComesFromRule(pairs, cim, familyBased, sets, block, products, rules, assigns, k, row);
      MeantIsInput(pairs, WideRules(cim), familyBased, products, k, r);
    } else if regex in InputRegexes(pairs, WideRules(cim), familyBased, products, k) {
      var r :| r in AllRules(pairs, WideRules(cim)) && MeantRule(pairs, WideRules(cim), familyBased, products, k, r) && r.regex == regex;
      var row := RuleGivesRow(pairs, cim, familyBased, sets, block, products, rules, assigns, k, r);
      assert false;
    }
  }

  lemma SameCodes(pairs: seq<Pair>, cim: Option<seq<Rule>>, familyBased: bool, sets: seq<RuleSet>, block: seq<NamedSet>,
                   products: seq<Product>, rules: seq<RuleRow>, assigns: seq<AssignRow>, k: nat, regex: string)
    requires Imported(pairs, cim, familyBased, sets, block) && Loaded(products, block, rules, assigns)
    requires k < |products| && DistinctIds(products)
    ensures CodesOf(Selected(rules, Effective(assigns, products[k])), regex) ==
            InputCodes(pairs, WideRules(cim), familyBased, products, k, regex)
  {
    var rows := Selected(rules, Effective(assigns, products[k]));
    hide Imported, Loaded, MeantRule, Selected, Effective, AllRules;
    forall c | c in CodesOf(rows, regex)
      ensures c in InputCodes(pairs, WideRules(cim), familyBased, products, k, regex)
    {
      var row :| row in rows && row.regex == regex && c in row.codes;
      var r := RowComesFromRule(pairs, cim, familyBased, sets, block, products, rules, assigns, k, row);
      MeantIsInput(pairs, WideRules(cim), familyBased, products, k, r);
      assert c in r.codes;
    }
    forall c | c in InputCodes(pairs, WideRules(cim), familyBased, products, k, regex)
      ensures c in CodesOf(rows, regex)
    {
      var r :| r in AllRules(pairs, WideRules(cim)) && MeantRule(pairs, WideRules(cim), familyBased, products, k, r)
               && r.regex == regex && c in r.codes;
      var row := RuleGivesRow(pairs, cim, familyBased, sets, block, products, rules, assigns, k, r);
      assert c in row.codes;
    }
  }

  /**
   Factoring, naming, loading and resolving lose and add nothing: a product's fields are the regexes
   the input has for it, each with the ordered union of all codes the input has for both.
   */
  lemma ResolvedIsUnion(pairs: seq<Pair>, cim: Option<seq<Rule>>, familyBased: bool, sets: seq<RuleSet>, block: seq<NamedSet>,
                        products: seq<Product>, rules: seq<RuleRow>, assigns: seq<AssignRow>, k: nat)
    requires Imported(pairs, cim, familyBased, sets, block) && Loaded(products, block, rules, assigns)
    requires k < |products| && DistinctIds(products)
    ensures var fields := Resolved(rules, assigns, products[k]);
      && fields.Keys == InputRegexes(pairs, WideRules(cim), familyBased, products, k)
      && forall regex | regex in fields ::
           fields[regex] == OrderCodes(InputCodes(pairs, WideRules(cim), familyBased, products, k, regex))
  {
    hide Imported, Loaded, Selected, Effective, Regexes, CodesOf, InputRegexes, InputCodes, OrderCodes;
    forall regex
      ensures regex in Resolved(rules, assigns, products[k]) <==> regex in InputRegexes(pairs, WideRules(cim), familyBased, products, k)
      ensures regex in Resolved(rules, assigns, products[k]) ==>
              Resolved(rules, assigns, products[k])[regex] ==
              OrderCodes(InputCodes(pairs, WideRules(cim), familyBased, products, k, regex))
    {
      SameRegexes(pairs, cim, familyBased, sets, block, products, rules, assigns, k, regex);
      SameCodes(pairs, cim, familyBased, sets, block, products, rules, assigns, k, regex);
    }
  }

  /** Of several products with one name only the first gets the rules stated for that name. */
  lemma NamesakeGetsNothing(pairs: seq<Pair>, cim: Option<seq<Rule>>, sets: seq<RuleSet>, block: seq<NamedSet>,
                            products: seq<Product>, rules: seq<RuleRow>, assigns: seq<AssignRow>, k: nat)
    requires Imported(pairs, cim, false, sets, block) && Loaded(products, block, rules, assigns)
    requires k < |products| && DistinctIds(products) && !FirstNamed(products, k)
    ensures Resolved(rules, assigns, products[k]).Keys == set r | r in WideRules(cim) :: r.regex
  {
    ResolvedIsUnion(pairs, cim, false, sets, block, products, rules, assigns, k);
    hide Resolved, Imported, Loaded;
    assert forall r | r in WideRules(cim) :: MeantRule(pairs, WideRules(cim), false, products, k, r);
  }

  /** What the input holds for product `k`. */
  ghost function InputFields(pairs: seq<Pair>, wide: seq<Rule>, familyBased: bool, products: seq<Product>, k: nat)
    : map<string, seq<Code>>
    requires k < |products|
  {
    map regex | regex in InputRegexes(pairs, wide, familyBased, products, k) ::
      OrderCodes(InputCodes(pairs, wide, familyBased, products, k, regex))
  }

  lemma ResolvedIsInput(pairs: seq<Pair>, cim: Option<seq<Rule>>, familyBased: bool, sets: seq<RuleSet>, block: seq<NamedSet>,
                        products: seq<Product>, rules: seq<RuleRow>, assigns: seq<AssignRow>, k: nat)
    requires Imported(pairs, cim, familyBased, sets, block) && Loaded(products, block, rules, assigns)
    requires k < |products| && DistinctIds(products)
    ensures Resolved(rules, assigns, products[k]) == InputFields(pairs, WideRules(cim), familyBased, products, k)
  {
    ResolvedIsUnion(pairs, cim, familyBased, sets, block, products, rules, assigns, k);
    hide Imported, Loaded, Resolved, InputRegexes, InputCodes, OrderCodes;
  }

  /** The importer and the portal read the same products, each in an order of its own. */
  ghost predicate SameProducts(loaded: seq<Product>, products: seq<Product>) {
    DistinctIds(loaded) && DistinctIds(products) && forall p :: p in loaded <==> p in products
  }

  /** Each product has what the input holds for it, by the order in which the importer read the products. */
  ghost predicate AllFromInput(pairs: seq<Pair>, wide: seq<Rule>, familyBased: bool, loaded: seq<Product>,
                               products: seq<Product>, resolved: seq<map<string, seq<Code>>>)
  {
    |resolved| == |products|
    && forall i, k | 0 <= i < |products| && 0 <= k < |loaded| && products[i] == loaded[k] ::
         resolved[i] == InputFields(pairs, wide, familyBased, loaded, k)
  }

  /**
   The whole way of one modality from its rows to its resolved products. The names of the sets do
   not matter here, so each gets the fallback base.
   */
  method ImportAndResolve(tables: Tables, pairs: seq<Pair>, cim: Option<seq<Rule>>, familyBased: bool,
                          loaded: seq<Product>, products: seq<Product>)
    returns (resolved: seq<map<string, seq<Code>>>)
    requires SameProducts(loaded, products) && forall p | p in pairs :: p.target != ""
    modifies tables
    ensures AllFromInput(pairs, WideRules(cim), familyBased, loaded, products, resolved)
  {
    var sets := FactorModality(pairs);
    var named := NameSets(sets, seq(|sets|, i requires 0 <= i < |sets| => "shared"), familyBased);
    NamedIsImported(pairs, cim, familyBased, sets, named);
    var block := BlockWith(named, cim);
    hide Imported, Loaded, Grouped, BlockOf, FreshNames, BlockWith, InputFields, Resolved;
    tables.StageClassification(loaded, block);
    resolved := ResolveModality(products, tables.rules, tables.assigns);
    forall i, k | 0 <= i < |products| && 0 <= k < |loaded| && products[i] == loaded[k]
      ensures resolved[i] == InputFields(pairs, WideRules(cim), familyBased, loaded, k)
    {
      ResolvedIsInput(pairs, cim, familyBased, sets, block, loaded, tables.rules, tables.assigns, k);
    }
  }

  // ---- Writing to the store ----

  type Hash = map<string, string>

  function Key(modality: string, product: string): string {
    "data_classes:" + modality + ":" + product
  }

  /** A reader that takes the key apart at its colons finds modality and product. */
  lemma KeyReads(modality: string, product: string)
    requires ':' !in modality && ':' !in product
    ensures Split(Key(modality, product), ':') == ["data_classes", modality, product]
  {
    var parts := ["data_classes", modality, product];
    assert parts[1..] == [modality, product] && [modality, product][1..] == [product];
    assert Join([product], ':') == product && Join([modality, product], ':') == modality + ([':'] + product);
    SplitInvertsJoin(parts, ':');
    assert Key(modality, product) == "data_classes" + ([':'] + (modality + ([':'] + product)));
  }

  function Slashed(regex: string): string {
    "/" + regex + "/"
  }

  /** One field per regex, its codes joined by commas. */
  function HashOf(fields: map<string, seq<Code>>): (h: Hash)
    ensures h.Keys == set regex | regex in fields :: Slashed(regex)
    ensures forall regex | regex in fields :: h[Slashed(regex)] == Join(fields[regex], ',')
  {
    assert forall regex | regex in fields :: Slashed(regex)[1..|regex| + 1] == regex;
    map k | k in (set regex | regex in fields :: Slashed(regex)) :: Join(fields[k[1..|k| - 1]], ',')
  }

  /** Every field is a regex between slashes, and its value comes apart into the codes, in their order. */
  lemma HashReads(fields: map<string, seq<Code>>, regex: string)
    requires regex in fields && fields[regex] != [] && forall i | 0 <= i < |fields[regex]| :: ',' !in fields[regex][i]
    ensures var name := ['/'] + regex + ['/'];
      name in HashOf(fields) && Split(HashOf(fields)[name], ',') == fields[regex]
    ensures |HashOf(fields)| == |fields|
  {
    SplitInvertsJoin(fields[regex], ',');
    assert ['/'] + regex + ['/'] == Slashed(regex);
    HashSize(fields);
  }

  lemma HashSize(fields: map<string, seq<Code>>)
    ensures |HashOf(fields)| == |fields|
  {
    NamesSize(fields.Keys);
    hide Slashed;
    assert (set r | r in fields :: Slashed(r)) == set r | r in fields.Keys :: Slashed(r);
    assert |HashOf(fields).Keys| == |fields.Keys|;
    assert |HashOf(fields)| == |HashOf(fields).Items| == |HashOf(fields).Keys|;
  }

  lemma {:induction false} NamesSize(regexes: set<string>)
    ensures |set r | r in regexes :: Slashed(r)| == |regexes|
  {
    if regexes != {} {
      var r :| r in regexes;
      NamesSize(regexes - {r});
      forall other | other in regexes - {r}
        ensures Slashed(other) != Slashed(r)
      {
        SlashedDiffers(other, r);
      }
      hide Slashed;
      assert (set x | x in regexes :: Slashed(x)) == (set x | x in regexes - {r} :: Slashed(x)) + {Slashed(r)};
    }
  }

  datatype Synced = Synced(store: map<string, Hash>, written: nat, deleted: nat)

  /** The key is deleted, then rewritten unless there are no fields. */
  function SyncOne(s: Synced, key: string, fields: map<string, seq<Code>>): Synced {
    if fields == map[] then Synced(s.store - {key}, s.written, s.deleted + if key in s.store then 1 else 0)
    else Synced(s.store[key := HashOf(fields)], s.written + 1, s.deleted)
  }

  function SyncAll(store: map<string, Hash>, modality: string, products: seq<Product>,
                   resolved: seq<map<string, seq<Code>>>): Synced
    requires |products| == |resolved|
  {
    if products == [] then Synced(store, 0, 0)
    else
      var n := |products| - 1;
      SyncOne(SyncAll(store, modality, products[..n], resolved[..n]), Key(modality, products[n].name), resolved[n])
  }

  /** What a product's key should hold; nothing when it has no fields. */
  function Wanted(fields: map<string, seq<Code>>): Option<Hash> {
    if fields == map[] then None else Some(HashOf(fields))
  }

  function At(store: map<string, Hash>, key: string): Option<Hash> {
    if key in store then Some(store[key]) else None
  }

  ghost predicate HashPart(h: Hash, fields: map<string, seq<Code>>, done: set<string>)
    requires done <= fields.Keys
  {
    && h.Keys == (set regex | regex in done :: Slashed(regex))
    && forall regex | regex in done :: h[Slashed(regex)] == Join(fields[regex], ',')
  }

  lemma SlashedDiffers(a: string, b: string)
    ensures Slashed(a) == Slashed(b) <==> a == b
  {
    assert Slashed(a)[1..|a| + 1] == a && Slashed(b)[1..|b| + 1] == b;
  }

  lemma HashOneMore(h: Hash, fields: map<string, seq<Code>>, done: set<string>, regex: string)
    requires done <= fields.Keys && regex in fields && regex !in done && HashPart(h, fields, done)
    ensures HashPart(h[Slashed(regex) := Join(fields[regex], ',')], fields, done + {regex})
  {
    hide Slashed, Join;
    var h' := h[Slashed(regex) := Join(fields[regex], ',')];
    forall other | other in done
      ensures Slashed(other) != Slashed(regex)
    {
      SlashedDiffers(other, regex);
    }
    assert h'.Keys == set other | other in done + {regex} :: Slashed(other);
  }

  lemma HashWhole(h: Hash, fields: map<string, seq<Code>>)
    requires HashPart(h, fields, fields.Keys)
    ensures h == HashOf(fields)
  {
    hide Slashed, Join;
    hide HashOf;
    assert h.Keys == HashOf(fields).Keys;
  }

  method BuildHash(fields: map<string, seq<Code>>) returns (hash: Hash)
    ensures hash == HashOf(fields)
  {
    hash := map[];
    var todo := fields.Keys;
    assert fields.Keys - todo == {};
    assert HashPart(hash, fields, {});
    hide HashPart, HashOf, Slashed;
    while todo != {}
      invariant todo <= fields.Keys && HashPart(hash, fields, fields.Keys - todo)
      decreases |todo|
    {
      var regex :| regex in todo;
      HashOneMore(hash, fields, fields.Keys - todo, regex);
      assert fields.Keys - (todo - {regex}) == fields.Keys - todo + {regex};
      hash := hash[Slashed(regex) := Join(fields[regex], ',')];
      todo := todo - {regex};
    }
    assert fields.Keys - {} == fields.Keys;
    HashWhole(hash, fields);
  }

  class Valkey {
    var store: map<string, Hash>

    constructor ()
    {
      store := map[];
    }

    method SyncProduct(key: string, fields: map<string, seq<Code>>) returns (written: nat, deleted: nat)
      modifies this
      ensures Synced(store, written, deleted) == SyncOne(Synced(old(store), 0, 0), key, fields)
    {
      hide HashOf;
      written, deleted := 0, 0;
      if fields == map[] {
        deleted := if key in store then 1 else 0;
        store := store - {key};
      } else {
        var hash := BuildHash(fields);
        store := store - {key};
        store := store[key := hash];
        assert store == old(store)[key := hash];
        written := 1;
      }
    }

    /** `syncModalityToValkey` */
    method SyncModality(modality: string, products: seq<Product>, resolved: seq<map<string, seq<Code>>>)
      returns (written: nat, deleted: nat)
      requires |products| == |resolved|
      modifies this
      ensures if modality == "" then store == old(store) && written == deleted == 0
              else Synced(store, written, deleted) == SyncAll(old(store), modality, products, resolved)
    {
      hide HashOf, Key;
      written, deleted := 0, 0;
      if modality == "" {
        return;
      }
      for i := 0 to |products|
        invariant Synced(store, written, deleted) == SyncAll(old(store), modality, products[..i], resolved[..i])
      {
        assert products[..i + 1][..i] == products[..i] && resolved[..i + 1][..i] == resolved[..i];
        var w, d := SyncProduct(Key(modality, products[i].name), resolved[i]);
        written, deleted := written + w, deleted + d;
      }
      assert products[..|products|] == products && resolved[..|resolved|] == resolved;
    }
  }

  lemma KeyByName(modality: string, a: string, b: string)
    ensures Key(modality, a) == Key(modality, b) <==> a == b
  {
    var n := |"data_classes:" + modality + ":"|;
    assert Key(modality, a)[n..] == a && Key(modality, b)[n..] == b;
  }

  ghost predicate LastNamed(products: seq<Product>, i: nat) {
    i < |products| && forall j | i < j < |products| :: products[j].name != products[i].name
  }

  /** The last product of a name decides what its key holds. */
  lemma {:induction false} LastNamesakeWins(store: map<string, Hash>, modality: string, products: seq<Product>,
                                             resolved: seq<map<string, seq<Code>>>, i: nat)
    requires |products| == |resolved| && LastNamed(products, i)
    ensures At(SyncAll(store, modality, products, resolved).store, Key(modality, products[i].name)) == Wanted(resolved[i])
  {
    hide HashOf, Key;
    var n := |products| - 1;
    if i < n {
      LastNamesakeWins(store, modality, products[..n], resolved[..n], i);
      KeyByName(modality, products[i].name, products[n].name);
    }
  }

  /** Keys of no product stay as they were. */
  lemma {:induction false} OtherKeysStay(store: map<string, Hash>, modality: string, products: seq<Product>,
                                          resolved: seq<map<string, seq<Code>>>, key: string)
    requires |products| == |resolved| && forall i | 0 <= i < |products| :: key != Key(modality, products[i].name)
    ensures At(SyncAll(store, modality, products, resolved).store, key) == At(store, key)
  {
    hide HashOf, Key;
    if products != [] {
      OtherKeysStay(store, modality, products[..|products| - 1], resolved[..|products| - 1], key);
    }
  }

  lemma {:induction false} SomeLastNamed(products: seq<Product>, i: nat) returns (l: nat)
    requires i < |products|
    ensures LastNamed(products, l) && products[l].name == products[i].name
  {
    l := |products| - 1;
    if products[l].name != products[i].name {
      var n := l;
      l := SomeLastNamed(products[..n], i);
    }
  }

  ghost predicate AllAsWanted(store: map<string, Hash>, modality: string, products: seq<Product>,
                              resolved: seq<map<string, seq<Code>>>)
    requires |products| == |resolved|
  {
    forall i | 0 <= i < |products| :: At(store, Key(modality, products[i].name)) == Wanted(resolved[i])
  }

  ghost predicate NamesakesAgree(products: seq<Product>, resolved: seq<map<string, seq<Code>>>)
    requires |products| == |resolved|
  {
    forall i, j | 0 <= i < |products| && 0 <= j < |products| && products[i].name == products[j].name ::
      Wanted(resolved[i]) == Wanted(resolved[j])
  }

  /** Every key holds its product's own fields exactly when products sharing a name resolve alike. */
  lemma AllWantedIff(store: map<string, Hash>, modality: string, products: seq<Product>,
                     resolved: seq<map<string, seq<Code>>>)
    requires |products| == |resolved|
    ensures AllAsWanted(SyncAll(store, modality, products, resolved).store, modality, products, resolved) <==>
            NamesakesAgree(products, resolved)
  {
    hide SyncAll, HashOf, Key, Wanted, At;
    var after := SyncAll(store, modality, products, resolved).store;
    if NamesakesAgree(products, resolved) {
      forall i | 0 <= i < |products|
        ensures At(after, Key(modality, products[i].name)) == Wanted(resolved[i])
      {
        var l := SomeLastNamed(products, i);
        LastNamesakeWins(store, modality, products, resolved, l);
      }
    }
    if AllAsWanted(after, modality, products, resolved) {
      forall i, j | 0 <= i < |products| && 0 <= j < |products| && products[i].name == products[j].name
        ensures Wanted(resolved[i]) == Wanted(resolved[j])
      {
        assert At(after, Key(modality, products[i].name)) == Wanted(resolved[i]);
      }
    }
  }

  // ---- When every product's key is right, on the input ----

  predicate PlainCode(c: Code) {
    c != "" && ',' !in c
  }

  predicate PlainCodes(codes: seq<Code>) {
    forall i | 0 <= i < |codes| :: PlainCode(codes[i])
  }

  lemma JoinInjective(a: seq<Code>, b: seq<Code>)
    requires PlainCodes(a) && PlainCodes(b) && Join(a, ',') == Join(b, ',')
    ensures a == b
  {
    assert Split("", ',') == [""] && Join([], ',') == "";
    assert forall i | 0 <= i < |a| :: PlainCode(a[i]);
    assert forall i | 0 <= i < |b| :: PlainCode(b[i]);
    hide Join, Split;
    if a != [] { SplitInvertsJoin(a, ','); }
    if b != [] { SplitInvertsJoin(b, ','); }
  }

  lemma {:induction false} OrderedPlain(order: seq<Code>, codes: set<Code>)
    requires PlainCodes(order)
    ensures PlainCodes(Ordered(order, codes))
  {
    if order != [] {
      assert PlainCodes(order[1..]);
      OrderedPlain(order[1..], codes);
    }
  }

  lemma OrderCodesPlain(codes: set<Code>)
    ensures PlainCodes(OrderCodes(codes))
  {
    assert PlainCodes(CLASS_ORDER);
    OrderedPlain(CLASS_ORDER, codes);
  }

  ghost predicate PlainFields(fields: map<string, seq<Code>>) {
    forall regex | regex in fields :: PlainCodes(fields[regex])
  }

  /** Different fields are written differently. */
  lemma WantedInjective(f: map<string, seq<Code>>, g: map<string, seq<Code>>)
    requires PlainFields(f) && PlainFields(g)
    ensures Wanted(f) == Wanted(g) <==> f == g
  {
    hide Join, Slashed;
    if Wanted(f) == Wanted(g) && f != map[] {
      assert HashOf(f) == HashOf(g);
      forall regex
        ensures regex in f <==> regex in g
      {
        SlashedIn(f, regex);
        SlashedIn(g, regex);
      }
      forall regex | regex in f
        ensures f[regex] == g[regex]
      {
        assert HashOf(f)[Slashed(regex)] == Join(f[regex], ',') == Join(g[regex], ',');
        JoinInjective(f[regex], g[regex]);
      }
    }
  }

  lemma SlashedIn(f: map<string, seq<Code>>, regex: string)
    ensures Slashed(regex) in HashOf(f) <==> regex in f
  {
    hide Slashed;
    if Slashed(regex) in HashOf(f) {
      var other :| other in f && Slashed(other) == Slashed(regex);
      SlashedDiffers(other, regex);
    }
  }

  lemma InputFieldsPlain(pairs: seq<Pair>, wide: seq<Rule>, familyBased: bool, products: seq<Product>, k: nat)
    requires k < |products|
    ensures PlainFields(InputFields(pairs, wide, familyBased, products, k))
  {
    hide OrderCodes, InputRegexes, InputCodes, PlainCodes;
    forall regex | regex in InputRegexes(pairs, wide, familyBased, products, k)
      ensures PlainCodes(OrderCodes(InputCodes(pairs, wide, familyBased, products, k, regex)))
    {
      OrderCodesPlain(InputCodes(pairs, wide, familyBased, products, k, regex));
    }
  }

  ghost predicate InputsAgree(pairs: seq<Pair>, wide: seq<Rule>, familyBased: bool, loaded: seq<Product>) {
    forall i, j | 0 <= i < |loaded| && 0 <= j < |loaded| && loaded[i].name == loaded[j].name ::
      InputFields(pairs, wide, familyBased, loaded, i) == InputFields(pairs, wide, familyBased, loaded, j)
  }

  lemma NamesakesOfInput(pairs: seq<Pair>, wide: seq<Rule>, familyBased: bool, loaded: seq<Product>,
                         products: seq<Product>, resolved: seq<map<string, seq<Code>>>)
    requires SameProducts(loaded, products) && AllFromInput(pairs, wide, familyBased, loaded, products, resolved)
    ensures NamesakesAgree(products, resolved) <==> InputsAgree(pairs, wide, familyBased, loaded)
  {
    hide InputFields, Wanted, PlainFields, DistinctIds;
    forall i, j | 0 <= i < |loaded| && 0 <= j < |loaded|
      ensures Wanted(InputFields(pairs, wide, familyBased, loaded, i)) == Wanted(InputFields(pairs, wide, familyBased, loaded, j)) <==>
              InputFields(pairs, wide, familyBased, loaded, i) == InputFields(pairs, wide, familyBased, loaded, j)
    {
      InputFieldsPlain(pairs, wide, familyBased, loaded, i);
      InputFieldsPlain(pairs, wide, familyBased, loaded, j);
      WantedInjective(InputFields(pairs, wide, familyBased, loaded, i), InputFields(pairs, wide, familyBased, loaded, j));
    }
    if InputsAgree(pairs, wide, familyBased, loaded) {
      forall i, j | 0 <= i < |products| && 0 <= j < |products| && products[i].name == products[j].name
        ensures Wanted(resolved[i]) == Wanted(resolved[j])
      {
        assert products[i] in loaded && products[j] in loaded;
      }
    }
    if NamesakesAgree(products, resolved) {
      forall i, j | 0 <= i < |loaded| && 0 <= j < |loaded| && loaded[i].name == loaded[j].name
        ensures InputFields(pairs, wide, familyBased, loaded, i) == InputFields(pairs, wide, familyBased, loaded, j)
      {
        assert loaded[i] in products && loaded[j] in products;
      }
    }
  }

  /** Every key holds its own product's fields exactly when the input holds the same for products sharing a name. */
  lemma AllWantedIffInput(store: map<string, Hash>, modality: string, pairs: seq<Pair>, wide: seq<Rule>, familyBased: bool,
                          loaded: seq<Product>, products: seq<Product>, resolved: seq<map<string, seq<Code>>>)
    requires SameProducts(loaded, products) && AllFromInput(pairs, wide, familyBased, loaded, products, resolved)
    ensures AllAsWanted(SyncAll(store, modality, products, resolved).store, modality, products, resolved) <==>
            InputsAgree(pairs, wide, familyBased, loaded)
  {
    AllWantedIff(store, modality, products, resolved);
    hide AllAsWanted, SyncAll, NamesakesAgree, InputsAgree;
    NamesakesOfInput(pairs, wide, familyBased, loaded, products, resolved);
  }

  function WideRegexes(wide: seq<Rule>): set<string> {
    set r | r in wide :: r.regex
  }

  function WideCodes(wide: seq<Rule>, regex: string): set<Code> {
    set r, c | r in wide && r.regex == regex && c in r.codes :: c
  }

  /** The fields of the modality-wide rules alone. */
  function WideFields(wide: seq<Rule>): map<string, seq<Code>> {
    map regex | regex in WideRegexes(wide) :: OrderCodes(WideCodes(wide, regex))
  }

  lemma LaterNamesakeIsWide(pairs: seq<Pair>, wide: seq<Rule>, products: seq<Product>, k: nat)
    requires k < |products| && !FirstNamed(products, k)
    ensures InputFields(pairs, wide, false, products, k) == WideFields(wide)
  {
    hide OrderCodes, AllRules;
    assert forall r :: MeantRule(pairs, wide, false, products, k, r) <==> r in wide;
    forall r | r in wide
      ensures r in AllRules(pairs, wide)
    {
      MeantIsInput(pairs, wide, false, products, k, r);
    }
    hide MeantRule;
    assert InputRegexes(pairs, wide, false, products, k) == WideRegexes(wide);
    forall regex
      ensures InputCodes(pairs, wide, false, products, k, regex) == WideCodes(wide, regex)
    {}
  }

  /** A product whose name a later one has, and whose own rules add something to the modality-wide ones. */
  ghost predicate Shadowed(pairs: seq<Pair>, wide: seq<Rule>, products: seq<Product>, i: nat) {
    && i < |products| && FirstNamed(products, i) && (exists j | i < j < |products| :: products[j].name == products[i].name)
    && InputFields(pairs, wide, false, products, i) != WideFields(wide)
  }

  lemma {:induction false} FirstOfName(products: seq<Product>, k: nat) returns (i: nat)
    requires k < |products|
    ensures i <= k && FirstNamed(products, i) && products[i].name == products[k].name
    decreases k
  {
    i := k;
    if !FirstNamed(products, k) {
      var j: nat :| 0 <= j < k && products[j].name == products[k].name;
      i := FirstOfName(products, j);
    }
  }

  lemma UnshadowedAgree(pairs: seq<Pair>, wide: seq<Rule>, products: seq<Product>, i: nat)
    requires i < |products| && !Shadowed(pairs, wide, products, i) && FirstNamed(products, i)
    ensures forall j | 0 <= j < |products| && products[j].name == products[i].name ::
              InputFields(pairs, wide, false, products, j) == InputFields(pairs, wide, false, products, i)
  {
    hide InputFields, WideFields;
    forall j | 0 <= j < |products| && products[j].name == products[i].name
      ensures InputFields(pairs, wide, false, products, j) == InputFields(pairs, wide, false, products, i)
    {
      if i < j {
        LaterNamesakeIsWide(pairs, wide, products, j);
      }
    }
  }

  ghost predicate Unshadowed(pairs: seq<Pair>, wide: seq<Rule>, products: seq<Product>) {
    forall i | 0 <= i < |products| :: !Shadowed(pairs, wide, products, i)
  }

  lemma AgreeIffUnshadowed(pairs: seq<Pair>, wide: seq<Rule>, products: seq<Product>)
    ensures InputsAgree(pairs, wide, false, products) <==> Unshadowed(pairs, wide, products)
  {
    hide InputFields, WideFields;
    if InputsAgree(pairs, wide, false, products) {
      forall i | 0 <= i < |products|
        ensures !Shadowed(pairs, wide, products, i)
      {
        if j :| i < j < |products| && products[j].name == products[i].name {
          LaterNamesakeIsWide(pairs, wide, products, j);
        }
      }
    }
    if Unshadowed(pairs, wide, products) {
      hide Shadowed;
      forall i, j | 0 <= i < |products| && 0 <= j < |products| && products[i].name == products[j].name
        ensures InputFields(pairs, wide, false, products, i) == InputFields(pairs, wide, false, products, j)
      {
        var a := FirstOfName(products, i);
        UnshadowedAgree(pairs, wide, products, a);
      }
    }
  }

  /** Of a product-based modality: exactly when no product with rules of its own has a later namesake for the importer. */
  lemma AllWantedIffUnshadowed(store: map<string, Hash>, modality: string, pairs: seq<Pair>, wide: seq<Rule>,
                               loaded: seq<Product>, products: seq<Product>, resolved: seq<map<string, seq<Code>>>)
    requires SameProducts(loaded, products) && AllFromInput(pairs, wide, false, loaded, products, resolved)
    ensures AllAsWanted(SyncAll(store, modality, products, resolved).store, modality, products, resolved) <==>
            Unshadowed(pairs, wide, loaded)
  {
    AllWantedIffInput(store, modality, pairs, wide, false, loaded, products, resolved);
    hide *;
    AgreeIffUnshadowed(pairs, wide, loaded);
  }

  /**
   What the key of a name ends up with: the rules stated for the name if the product the portal reads
   last is the one the importer read first, and the modality-wide rules alone if it is not.
   */
  lemma SharedKeyHolds(store: map<string, Hash>, modality: string, pairs: seq<Pair>, wide: seq<Rule>,
                       loaded: seq<Product>, products: seq<Product>, resolved: seq<map<string, seq<Code>>>, l: nat, k: nat)
    requires SameProducts(loaded, products) && AllFromInput(pairs, wide, false, loaded, products, resolved)
    requires LastNamed(products, l) && k < |loaded| && loaded[k] == products[l]
    ensures At(SyncAll(store, modality, products, resolved).store, Key(modality, products[l].name)) ==
            Wanted(if FirstNamed(loaded, k) then InputFields(pairs, wide, false, loaded, k) else WideFields(wide))
  {
    LastNamesakeWins(store, modality, products, resolved, l);
    hide SyncAll, Wanted, InputFields, WideFields, At, Key;
    if !FirstNamed(loaded, k) {
      LaterNamesakeIsWide(pairs, wide, loaded, k);
    }
  }
}
