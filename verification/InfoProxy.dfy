/** The info-proxy spool: a streamed group-by over ordered rows, written through a pipeline and pruned. */
module InfoProxy {
  import opened Wrappers
  import opened Bytes
  import Classification
  import Text

  datatype ProxyType = Intranet | Internet

  /** The three tiers of a proxy type. */
  datatype Scope = Global | Model(partno: string) | Device(ip: string)

  datatype Rule = Rule(dns: Option<string>, cidr: Option<string>, portFrom: Option<nat>, portTo: Option<nat>,
                       protocol: Option<string>)

  datatype Row = Row(proxyType: ProxyType, scope: Scope, rule: Rule)

  // ---- Keys and members ----

  const PREFIX: string := "infoproxy:"

  function TypeText(t: ProxyType): (s: string)
    ensures |s| == 8
  {
    if t.Intranet? then "intranet" else "internet"
  }

  function ScopeText(s: Scope): string {
    match s
    case Global => ":global"
    case Model(partno) => ":model:" + partno
    case Device(ip) => ":device:" + ip
  }

  /** The three key builders. */
  function Key(t: ProxyType, s: Scope): string {
    PREFIX + TypeText(t) + ScopeText(s)
  }

  function KeyOf(r: Row): string {
    Key(r.proxyType, r.scope)
  }

  lemma ScopeTextInjective(s: Scope, u: Scope)
    requires ScopeText(s) == ScopeText(u)
    ensures s == u
  {
    var a := ScopeText(s);
    assert a[1] == if s.Global? then 'g' else if s.Model? then 'm' else 'd';
    assert a[1] == if u.Global? then 'g' else if u.Model? then 'm' else 'd';
    match s {
      case Global =>
      case Model(p) => assert a[7..] == p && a[7..] == u.partno;
      case Device(p) => assert a[8..] == p && a[8..] == u.ip;
    }
  }

  /** The keys as the helper looks them up. */
  lemma IntranetKeys(partno: string, ip: string)
    ensures Key(Intranet, Global) == "infoproxy:intranet:global"
    ensures Key(Intranet, Model(partno)) == "infoproxy:intranet:model:" + partno
    ensures Key(Intranet, Device(ip)) == "infoproxy:intranet:device:" + ip
  {
    var start := PREFIX + TypeText(Intranet);
    assert start == "infoproxy:intranet";
    assert start + ":global" == "infoproxy:intranet:global";
    assert start + ":model:" == "infoproxy:intranet:model:" && start + ":device:" == "infoproxy:intranet:device:";
    assert start + (":model:" + partno) == (start + ":model:") + partno;
    assert start + (":device:" + ip) == (start + ":device:") + ip;
  }

  lemma InternetKeys(partno: string, ip: string)
    ensures Key(Internet, Global) == "infoproxy:internet:global"
    ensures Key(Internet, Model(partno)) == "infoproxy:internet:model:" + partno
    ensures Key(Internet, Device(ip)) == "infoproxy:internet:device:" + ip
  {
    var start := PREFIX + TypeText(Internet);
    assert start == "infoproxy:internet";
    assert start + ":global" == "infoproxy:internet:global";
    assert start + ":model:" == "infoproxy:internet:model:" && start + ":device:" == "infoproxy:internet:device:";
    assert start + (":model:" + partno) == (start + ":model:") + partno;
    assert start + (":device:" + ip) == (start + ":device:") + ip;
  }

  /** No two scopes share a key, across tiers and proxy types. */
  lemma KeyInjective(t: ProxyType, s: Scope, u: ProxyType, v: Scope)
    requires Key(t, s) == Key(u, v)
    ensures t == u && s == v
  {
    var k := Key(t, s);
    assert k[10..18] == TypeText(t) && k[10..18] == TypeText(u);
    assert k[18..] == ScopeText(s) && k[18..] == ScopeText(v);
    assert TypeText(t)[5] == TypeText(u)[5];
    ScopeTextInjective(s, v);
  }

  const TAB: char := '\t'

  function Column(v: Option<string>): string {
    GetOr(v, "")
  }

  function Port(p: Option<nat>): string {
    if p.None? then "" else Text.Str(p.value)
  }

  function Columns(r: Rule): seq<string> {
    [Column(r.dns), Column(r.cidr), Port(r.portFrom), Port(r.portTo), Column(r.protocol)]
  }

  /** `encodeRule` */
  function EncodeRule(r: Rule): string {
    Text.Join(Columns(r), TAB)
  }

  predicate TabFree(r: Rule) {
    TAB !in Column(r.dns) && TAB !in Column(r.cidr) && TAB !in Column(r.protocol)
  }

  lemma JoinInjective(a: seq<string>, b: seq<string>)
    requires a != [] && b != [] && Text.Join(a, TAB) == Text.Join(b, TAB)
    requires (forall i | 0 <= i < |a| :: TAB !in a[i]) && (forall i | 0 <= i < |b| :: TAB !in b[i])
    ensures a == b
  {
    Text.SplitInvertsJoin(a, TAB);
    Text.SplitInvertsJoin(b, TAB);
  }

  /** A helper that splits a member at its tabs finds name, range, first and last port, and protocol, in this order. */
  lemma RuleReads(r: Rule)
    requires TabFree(r)
    ensures Text.Split(EncodeRule(r), '\t') ==
            [if r.dns.Some? then r.dns.value else "", if r.cidr.Some? then r.cidr.value else "",
             if r.portFrom.Some? then Text.Str(r.portFrom.value) else "", if r.portTo.Some? then Text.Str(r.portTo.value) else "",
             if r.protocol.Some? then r.protocol.value else ""]
  {
    PortHasNoTab(r.portFrom);
    PortHasNoTab(r.portTo);
    var cs := Columns(r);
    assert forall i | 0 <= i < |cs| :: TAB !in cs[i];
    Text.SplitInvertsJoin(cs, TAB);
  }

  lemma PortInjective(p: Option<nat>, q: Option<nat>)
    requires Port(p) == Port(q)
    ensures p == q
  {
    if p.Some? && q.Some? {
      Text.StrInjective(p.value, q.value);
    }
  }

  lemma PortHasNoTab(p: Option<nat>)
    ensures TAB !in Port(p)
  {
    if p.Some? {
      forall c | c in Port(p)
        ensures c != TAB
      {
        Text.StrHasDigits(p.value, c);
      }
    }
  }

  lemma EncodeRuleInjective(r: Rule, q: Rule)
    requires TabFree(r) && TabFree(q) && EncodeRule(r) == EncodeRule(q)
    ensures Column(r.dns) == Column(q.dns) && Column(r.cidr) == Column(q.cidr) && Column(r.protocol) == Column(q.protocol)
    ensures r.portFrom == q.portFrom && r.portTo == q.portTo
  {
    hide Column, Port, Text.Join;
    PortHasNoTab(r.portFrom);
    PortHasNoTab(r.portTo);
    PortHasNoTab(q.portFrom);
    PortHasNoTab(q.portTo);
    var a, b := Columns(r), Columns(q);
    JoinInjective(a, b);
    assert a[0] == b[0] && a[1] == b[1] && a[2] == b[2] && a[3] == b[3] && a[4] == b[4];
    PortInjective(r.portFrom, q.portFrom);
    PortInjective(r.portTo, q.portTo);
  }

  // ---- What the store should hold ----

  type Store = map<string, set<string>>

  function Members(rows: set<Row>, t: ProxyType, s: Scope): set<string> {
    set r | r in rows && r.proxyType == t && r.scope == s :: EncodeRule(r.rule)
  }

  function Keys(rows: set<Row>): set<string> {
    set r | r in rows :: KeyOf(r)
  }

  /** One key per scope, holding the encoded rules of its rows. */
  function Wanted(rows: set<Row>): Store {
    map k | k in Keys(rows) :: set r | r in rows && KeyOf(r) == k :: EncodeRule(r.rule)
  }

  lemma WantedAt(rows: set<Row>, t: ProxyType, s: Scope)
    ensures Key(t, s) in Wanted(rows) <==> exists r :: r in rows && r.proxyType == t && r.scope == s
    ensures Key(t, s) in Wanted(rows) ==> Wanted(rows)[Key(t, s)] == Members(rows, t, s)
  {
    hide Key, EncodeRule;
    forall r | r in rows && KeyOf(r) == Key(t, s)
      ensures r.proxyType == t && r.scope == s
    {
      KeyInjective(r.proxyType, r.scope, t, s);
    }
  }

  predicate InScope(r: Row, t: ProxyType, s: Scope) {
    r.proxyType == t && r.scope == s
  }

  /** Adding all rows of a new scope adds one key. */
  lemma WantedOneMore(rows: set<Row>, more: set<Row>, t: ProxyType, s: Scope)
    requires more != {} && forall r | r in more :: InScope(r, t, s)
    requires forall r | r in rows :: !InScope(r, t, s)
    ensures Wanted(rows + more) == Wanted(rows)[Key(t, s) := Members(more, t, s)]
    ensures Key(t, s) !in Wanted(rows)
  {
    hide Key, EncodeRule;
    forall r | r in rows
      ensures KeyOf(r) != Key(t, s)
    {
      if KeyOf(r) == Key(t, s) { KeyInjective(r.proxyType, r.scope, t, s); }
    }
    var all, k0 := Wanted(rows + more), Key(t, s);
    assert Keys(rows + more) == Keys(rows) + {k0};
    forall k | k in all
      ensures all[k] == Wanted(rows)[k0 := Members(more, t, s)][k]
    {}
  }

  function Scopes(rows: set<Row>): set<(ProxyType, Scope)> {
    set r | r in rows :: (r.proxyType, r.scope)
  }

  lemma {:induction false} KeysOfScopes(scopes: set<(ProxyType, Scope)>)
    ensures |set x | x in scopes :: Key(x.0, x.1)| == |scopes|
  {
    hide Key;
    if scopes != {} {
      var x :| x in scopes;
      var rest := scopes - {x};
      KeysOfScopes(rest);
      var keys := set y | y in rest :: Key(y.0, y.1);
      assert (set y | y in scopes :: Key(y.0, y.1)) == keys + {Key(x.0, x.1)};
      forall y | y in rest
        ensures Key(y.0, y.1) != Key(x.0, x.1)
      {
        if Key(y.0, y.1) == Key(x.0, x.1) { KeyInjective(y.0, y.1, x.0, x.1); }
      }
    } else {
      assert (set x | x in scopes :: Key(x.0, x.1)) == {};
    }
  }

  /** As many keys as distinct scopes. */
  lemma KeyCount(rows: set<Row>)
    ensures |Wanted(rows).Keys| == |Scopes(rows)|
  {
    hide Key, EncodeRule;
    var scopes := Scopes(rows);
    var keys := set x | x in scopes :: Key(x.0, x.1);
    KeysOfScopes(scopes);
    forall k | k in Keys(rows)
      ensures k in keys
    {
      var r :| r in rows && KeyOf(r) == k;
      assert (r.proxyType, r.scope) in scopes;
    }
    forall k | k in keys
      ensures k in Keys(rows)
    {
      var x :| x in scopes && Key(x.0, x.1) == k;
      var r :| r in rows && (r.proxyType, r.scope) == x;
      assert KeyOf(r) == k;
    }
    assert Wanted(rows).Keys == Keys(rows) == keys;
  }

  // ---- Spooling ----

  const PIPELINE_KEYS: nat := 256

  /** One atomic DEL and SADD; without members only the deletion. */
  function Exec(store: Store, key: string, members: set<string>): Store {
    if members == {} then store - {key} else store[key := members]
  }

  /** The store once everything in flight has run; keys in flight are distinct, so the order does not matter. */
  function Applied(store: Store, inFlight: Store): Store {
    map k | k in store.Keys + inFlight.Keys && (k in inFlight ==> inFlight[k] != {}) ::
      if k in inFlight then inFlight[k] else store[k]
  }

  function SetOf(rows: seq<Row>): set<Row> {
    set r | r in rows
  }

  /** `ORDER BY proxy_type, scope`: the rows of a scope stand together. */
  ghost predicate Contiguous(rows: seq<Row>) {
    forall i, j, k | 0 <= i < j < k < |rows| && InScope(rows[k], rows[i].proxyType, rows[i].scope) ::
      InScope(rows[j], rows[i].proxyType, rows[i].scope)
  }

  lemma ScopeReaches(rows: seq<Row>, h: nat, i: nat)
    requires h < i < |rows| && Contiguous(rows) && InScope(rows[h], rows[i].proxyType, rows[i].scope)
    ensures InScope(rows[i - 1], rows[i].proxyType, rows[i].scope)
  {
    if h < i - 1 {
      assert InScope(rows[i - 1], rows[h].proxyType, rows[h].scope);
    }
  }

  lemma NewScope(rows: seq<Row>, i: nat)
    requires 0 < i < |rows| && Contiguous(rows) && !InScope(rows[i], rows[i - 1].proxyType, rows[i - 1].scope)
    ensures forall r | r in rows[..i] :: !InScope(r, rows[i].proxyType, rows[i].scope)
  {
    hide Contiguous;
    forall h | 0 <= h < i
      ensures !InScope(rows[h], rows[i].proxyType, rows[i].scope)
    {
      if InScope(rows[h], rows[i].proxyType, rows[i].scope) {
        ScopeReaches(rows, h, i);
      }
    }
  }

  predicate IsInfo(key: string) {
    PREFIX <= key
  }

  /** The keys of the spool that no scope wants. */
  function Stale(store: Store, desired: set<string>): set<string> {
    set k | k in store && IsInfo(k) && k !in desired
  }

  function Pruned(store: Store, desired: set<string>): Store {
    map k | k in store && (IsInfo(k) ==> k in desired) :: store[k]
  }

  /** No scope has rows on both sides. */
  ghost predicate Apart(a: set<Row>, b: set<Row>) {
    forall r, q | r in a && q in b :: !InScope(r, q.proxyType, q.scope)
  }

  /** `open` are the rows read of scope `t`, `s`, with their members; `done` has none of its rows. */
  ghost predicate ScopeOpen(done: set<Row>, open: set<Row>, t: ProxyType, s: Scope, members: set<string>) {
    && open != {} && members == Members(open, t, s)
    && (forall r | r in open :: InScope(r, t, s))
    && (forall r | r in done :: !InScope(r, t, s))
  }

  /** Between rows: `done` are the rows of closed scopes, `open` those of the current one. */
  ghost predicate Collecting(rows: seq<Row>, seen: nat, earlier: set<Row>, done: set<Row>, open: set<Row>,
                             cur: Option<(ProxyType, Scope)>, members: set<string>)
  {
    && seen <= |rows| && done + open == earlier + SetOf(rows[..seen])
    && (seen == 0 <==> cur.None?)
    && (cur.None? ==> open == {} && members == {})
    && (cur.Some? ==> ScopeOpen(done, open, cur.value.0, cur.value.1, members)
                      && InScope(rows[seen - 1], cur.value.0, cur.value.1))
  }

  ghost predicate OnTop(base: Store, rows: set<Row>, effective: Store, desired: set<string>, written: nat) {
    desired == Wanted(rows).Keys && effective == base + Wanted(rows) && written == |desired|
  }

  lemma OneMoreOnTop(base: Store, rows: set<Row>, effective: Store, desired: set<string>, written: nat,
                     more: set<Row>, t: ProxyType, s: Scope)
    requires OnTop(base, rows, effective, desired, written)
    requires more != {} && forall r | r in more :: InScope(r, t, s)
    requires forall r | r in rows :: !InScope(r, t, s)
    ensures Key(t, s) !in desired && Members(more, t, s) != {}
    ensures OnTop(base, rows + more, Exec(effective, Key(t, s), Members(more, t, s)), desired + {Key(t, s)}, written + 1)
  {
    WantedOneMore(rows, more, t, s);
    MembersSome(more, t, s);
    hide Wanted, Key, Members, InScope, Exec;
    StoreStep(base, Wanted(rows), effective, desired, Key(t, s), Members(more, t, s));
  }

  lemma StoreStep(base: Store, w: Store, effective: Store, desired: set<string>, k: string, members: set<string>)
    requires desired == w.Keys && effective == base + w && k !in w && members != {}
    ensures var w' := w[k := members];
      desired + {k} == w'.Keys && |desired + {k}| == |desired| + 1 && Exec(effective, k, members) == base + w'
  {
    Overlaid(base, w, k, members);
  }

  class Spooler {
    var store: Store
    var inFlight: Store
    var pending: nat
    var desired: set<string>
    var written: nat

    constructor (store: Store)
      ensures this.store == store && inFlight == map[]
    {
      this.store, inFlight, pending, desired, written := store, map[], 0, {}, 0;
    }

    function Effective(): Store
      reads this
    {
      Applied(store, inFlight)
    }

    /** Exactly the keys of these rows have been written, each once, on top of what the store held. */
    ghost predicate Spooled(base: Store, rows: set<Row>)
      reads this
    {
      inFlight.Keys <= desired && OnTop(base, rows, Effective(), desired, written)
    }

    /** The server runs some of the transactions in flight, in any order. */
    method Serve(some: set<string>)
      requires some <= inFlight.Keys
      modifies this`store, this`inFlight
      ensures Effective() == old(Effective()) && inFlight.Keys == old(inFlight.Keys) - some
    {
      hide Applied, Exec;
      var left := some;
      while left != {}
        invariant left <= some && inFlight.Keys == old(inFlight.Keys) - (some - left)
        invariant Effective() == old(Effective())
        decreases |left|
      {
        var k :| k in left;
        ServedOne(store, inFlight, k);
        store := Exec(store, k, inFlight[k]);
        inFlight := inFlight - {k};
        left := left - {k};
      }
      assert some - {} == some;
    }

    method FlushPending()
      modifies this`store, this`inFlight, this`pending
      ensures store == old(Effective()) && inFlight == map[] && Effective() == store
    {
      hide Applied;
      Serve(inFlight.Keys);
      pending := 0;
      assert inFlight == map[];
      AppliedNothing(store);
    }

    /** The transaction is dispatched without waiting; the server may run any of those in flight meanwhile. */
    method WriteKey(key: string, members: set<string>, some: set<string>)
      requires key !in desired && inFlight.Keys <= desired && some <= inFlight.Keys
      modifies this`store, this`inFlight, this`pending, this`desired, this`written
      ensures Effective() == Exec(old(Effective()), key, members)
      ensures desired == old(desired) + {key} && written == old(written) + 1 && inFlight.Keys <= desired
    {
      hide Applied, Exec;
      Serve(some);
      desired := desired + {key};
      Dispatched(store, inFlight, key, members);
      inFlight := inFlight[key := members];
      written := written + 1;
      pending := pending + 1;
      if PIPELINE_KEYS <= pending {
        FlushPending();
      }
    }

    /** Writes the key of one scope whose rows have all been read. */
    method WriteScope(t: ProxyType, s: Scope, members: set<string>, ghost base: Store, ghost rows: set<Row>, ghost more: set<Row>)
      requires Spooled(base, rows) && ScopeOpen(rows, more, t, s, members)
      modifies this`store, this`inFlight, this`pending, this`desired, this`written
      ensures Spooled(base, rows + more)
    {
      hide OnTop, Key, Effective, Members, InScope;
      OneMoreOnTop(base, rows, Effective(), desired, written, more, t, s);
      var some: set<string> :| some <= inFlight.Keys;
      WriteKey(Key(t, s), members, some);
    }

    /** One row of `streamScoped`: at a scope boundary the collected key is written first. */
    method TakeRow(r: Row, cur: Option<(ProxyType, Scope)>, members: set<string>, ghost base: Store, ghost rows: seq<Row>,
                   ghost seen: nat, ghost earlier: set<Row>, ghost done: set<Row>, ghost open: set<Row>)
      returns (cur': Option<(ProxyType, Scope)>, members': set<string>, ghost done': set<Row>, ghost open': set<Row>)
      requires seen < |rows| && r == rows[seen] && Contiguous(rows) && Apart(earlier, SetOf(rows))
      requires Collecting(rows, seen, earlier, done, open, cur, members) && Spooled(base, done)
      modifies this`store, this`inFlight, this`pending, this`desired, this`written
      ensures Collecting(rows, seen + 1, earlier, done', open', cur', members') && Spooled(base, done')
    {
      hide Contiguous, Apart, Spooled, SetOf, Members, InScope, EncodeRule;
      cur', members', done', open' := cur, members, done, open;
      if cur != Some((r.proxyType, r.scope)) {
        NewScopeRow(rows, seen, earlier, done, open, cur, members);
        done' := done + open;
        if cur.Some? {
          assert ScopeOpen(done, open, cur.value.0, cur.value.1, members);
          WriteScope(cur.value.0, cur.value.1, members, base, done, open);
        } else {
          assert done' == done;
        }
        cur', members', open' := Some((r.proxyType, r.scope)), {}, {};
      } else {
        SameScopeRow(rows, seen, earlier, done, open, cur, members);
      }
      hide Collecting;
      assert {} + {EncodeRule(r.rule)} == {EncodeRule(r.rule)} && {} + {r} == {r};
      members' := members' + {EncodeRule(r.rule)};
      open' := open' + {r};
    }

    method TakeBatch(batch: seq<Row>, cur: Option<(ProxyType, Scope)>, members: set<string>, ghost base: Store,
                     ghost rows: seq<Row>, ghost seen: nat, ghost more: seq<seq<Row>>, ghost earlier: set<Row>,
                     ghost done: set<Row>, ghost open: set<Row>)
      returns (cur': Option<(ProxyType, Scope)>, members': set<string>, ghost seen': nat, ghost done': set<Row>, ghost open': set<Row>)
      requires Left(rows, seen, batch, more) && Contiguous(rows) && Apart(earlier, SetOf(rows))
      requires Collecting(rows, seen, earlier, done, open, cur, members) && Spooled(base, done)
      modifies this`store, this`inFlight, this`pending, this`desired, this`written
      ensures Left(rows, seen', [], more)
      ensures Collecting(rows, seen', earlier, done', open', cur', members') && Spooled(base, done')
    {
      hide Contiguous, Apart, Spooled, Concat, Collecting, SetOf, Left;
      cur', members', seen', done', open' := cur, members, seen, done, open;
      assert batch[0..] == batch;
      for i := 0 to |batch|
        invariant Left(rows, seen', batch[i..], more)
        invariant Collecting(rows, seen', earlier, done', open', cur', members') && Spooled(base, done')
      {
        RowIsNext(rows, seen', batch, i, more);
        cur', members', done', open' := TakeRow(batch[i], cur', members', base, rows, seen', earlier, done', open');
        seen' := seen' + 1;
      }
      assert batch[|batch|..] == [];
    }

    /**
     `streamScoped` over a cursor's batches. `earlier` are the rows of the tiers spooled before;
     `cur` is the scope whose members are being collected.
     */
    method StreamScoped(batches: seq<seq<Row>>, ghost base: Store, ghost earlier: set<Row>)
      requires Contiguous(Concat(batches)) && Apart(earlier, SetOf(Concat(batches))) && Spooled(base, earlier)
      modifies this`store, this`inFlight, this`pending, this`desired, this`written
      ensures Spooled(base, earlier + SetOf(Concat(batches)))
    {
      ghost var rows := Concat(batches);
      var cur: Option<(ProxyType, Scope)> := None;
      var members: set<string> := {};
      ghost var done, open: set<Row> := earlier, {};
      ghost var seen: nat := 0;
      StreamStarts(rows, batches, earlier);
      hide *;
      for b := 0 to |batches|
        invariant Left(rows, seen, [], batches[b..])
        invariant Collecting(rows, seen, earlier, done, open, cur, members) && Spooled(base, done)
      {
        BatchStarts(rows, seen, batches, b);
        cur, members, seen, done, open := TakeBatch(batches[b], cur, members, base, rows, seen, batches[b + 1..], earlier, done, open);
      }
      AllSeen(rows, seen, batches, earlier, done, open, cur, members);
      if cur.Some? {
        WriteScope(cur.value.0, cur.value.1, members, base, done, open);
      }
    }

    /** The members of the global tier, by proxy type. */
    method CollectGlobal(rows: seq<Row>) returns (byType: map<ProxyType, set<string>>)
      requires forall r | r in rows :: r.scope.Global?
      ensures byType.Keys == Types(SetOf(rows))
      ensures forall t | t in byType :: byType[t] == Members(SetOf(rows), t, Global)
    {
      byType := map[];
      hide EncodeRule;
      for i := 0 to |rows|
        invariant byType.Keys == Types(SetOf(rows[..i]))
        invariant forall t | t in byType :: byType[t] == Members(SetOf(rows[..i]), t, Global)
      {
        var t := rows[i].proxyType;
        SeenOneMore(rows, i);
        GlobalOneMore(SetOf(rows[..i]), rows[i]);
        hide SetOf, Members, Types;
        byType := byType[t := (if t in byType then byType[t] else {}) + {EncodeRule(rows[i].rule)}];
      }
      assert rows[..|rows|] == rows;
    }

    method GlobalTier(rows: seq<Row>, ghost base: Store)
      requires (forall r | r in rows :: r.scope.Global?) && Spooled(base, {})
      modifies this`store, this`inFlight, this`pending, this`desired, this`written
      ensures Spooled(base, SetOf(rows))
    {
      var byType := CollectGlobal(rows);
      var left := byType.Keys;
      ghost var all := SetOf(rows);
      ghost var done: set<Row> := {};
      assert OfTypes(all, left) == all && all - all == {};
      assert forall r | r in all :: r.scope.Global?;
      assert OfTypes(all, {}) == {} && all - {} == all;
      hide *;
      while left != {}
        invariant left <= byType.Keys && done == all - OfTypes(all, left) && Spooled(base, done)
        decreases |left|
      {
        var t :| t in left;
        TypeIsScope(all, left, t);
        WriteScope(t, Global, byType[t], base, done, OfTypes(all, {t}));
        done := done + OfTypes(all, {t});
        left := left - {t};
      }
    }

    /** `scanIterator`: every key with the prefix comes up, some perhaps more than once. */
    method Scan() returns (keys: seq<string>)
      ensures forall k | k in store && IsInfo(k) :: k in keys
      ensures forall k | k in keys :: k in store && IsInfo(k)
    {
      keys := [];
      var left := store.Keys;
      while left != {}
        invariant left <= store.Keys
        invariant forall k | k in store && IsInfo(k) && k !in left :: k in keys
        invariant forall k | k in keys :: k in store && IsInfo(k)
        decreases |left|
      {
        var k :| k in left;
        left := left - {k};
        if IsInfo(k) {
          keys := keys + [k];
        }
      }
    }

    method Prune() returns (removed: nat)
      modifies this`store
      ensures store == Pruned(old(store), desired)
      ensures |Stale(old(store), desired)| <= removed
    {
      hide IsInfo;
      var keys := Scan();
      var stale: seq<string> := [];
      for i := 0 to |keys|
        invariant forall k :: k in stale <==> k in keys[..i] && k !in desired
      {
        if keys[i] !in desired {
          stale := stale + [keys[i]];
        }
      }
      assert keys[..|keys|] == keys;
      for i := 0 to |stale|
        invariant store == map k | k in old(store) && k !in stale[..i] :: old(store)[k]
      {
        store := store - {stale[i]};
      }
      assert stale[..|stale|] == stale;
      removed := |stale|;
      Classification.SetOfSize(stale);
      assert Stale(old(store), desired) == set k | k in stale;
    }

    /** `syncToValkey`, from the rows the three queries return. */
    method Sync(globals: seq<Row>, models: seq<seq<Row>>, devices: seq<seq<Row>>) returns (removed: nat)
      requires inFlight == map[] && Ordered(globals, models, devices)
      modifies this
      ensures store == Synced(old(store), AllRows(globals, models, devices)) && inFlight == map[]
      ensures written == |Scopes(AllRows(globals, models, devices))|
    {
      ghost var base := store;
      desired, written, pending := {}, 0, 0;
      StartOnTop(base);
      assert Spooled(base, {});
      TiersApart(globals, models, devices);
      hide Spooled, Contiguous, Apart, Applied, OnTop;
      GlobalTier(globals, base);
      StreamScoped(models, base, SetOf(globals));
      StreamScoped(devices, base, SetOf(globals) + SetOf(Concat(models)));
      ghost var rows := AllRows(globals, models, devices);
      assert Spooled(base, rows);
      Flushed(base, rows);
      FlushPending();
      removed := Prune();
      hide Pruned, Synced;
      KeyCount(rows);
    }

    lemma Flushed(base: Store, rows: set<Row>)
      requires Spooled(base, rows)
      ensures Effective() == base + Wanted(rows) && written == |Wanted(rows).Keys|
      ensures Pruned(base + Wanted(rows), desired) == Synced(base, rows)
    {
      WantedIsInfo(rows);
      hide Wanted, IsInfo, Applied;
      PruneGives(base, Wanted(rows));
      hide Pruned;
      assert desired == Wanted(rows).Keys;
    }
  }

  lemma PruneGives(base: Store, w: Store)
    requires forall k | k in w :: IsInfo(k)
    ensures forall k :: k in Pruned(base + w, w.Keys) <==> (k in base || k in w) && (IsInfo(k) ==> k in w)
    ensures forall k | k in Pruned(base + w, w.Keys) :: Pruned(base + w, w.Keys)[k] == if k in w then w[k] else base[k]
  {
    hide IsInfo;
  }

  ghost predicate Ordered(globals: seq<Row>, models: seq<seq<Row>>, devices: seq<seq<Row>>) {
    && (forall r | r in globals :: r.scope.Global?)
    && (forall r | r in Concat(models) :: r.scope.Model?) && Contiguous(Concat(models))
    && (forall r | r in Concat(devices) :: r.scope.Device?) && Contiguous(Concat(devices))
  }

  function AllRows(globals: seq<Row>, models: seq<seq<Row>>, devices: seq<seq<Row>>): set<Row> {
    SetOf(globals) + SetOf(Concat(models)) + SetOf(Concat(devices))
  }

  /** Under the prefix exactly the wanted keys; everything else as it was. */
  function Synced(base: Store, rows: set<Row>): Store {
    map k | k in base.Keys + Wanted(rows).Keys && (IsInfo(k) ==> k in Wanted(rows)) ::
      if k in Wanted(rows) then Wanted(rows)[k] else base[k]
  }

  lemma WantedIsInfo(rows: set<Row>)
    ensures forall k | k in Wanted(rows) :: IsInfo(k)
  {
    hide TypeText, ScopeText, EncodeRule;
  }

  /** A key of the spool exists exactly for the scopes that have rows, with all their members and no others, whatever the store held. */
  lemma SpoolIsGroupBy(base: Store, rows: set<Row>, t: ProxyType, s: Scope)
    ensures Key(t, s) in Synced(base, rows) <==> exists r :: r in rows && r.proxyType == t && r.scope == s
    ensures Key(t, s) in Synced(base, rows) ==> Synced(base, rows)[Key(t, s)] == Members(rows, t, s)
  {
    WantedAt(rows, t, s);
    assert IsInfo(Key(t, s)) by {
      hide TypeText, ScopeText;
    }
    hide Key, EncodeRule, IsInfo, Wanted;
  }

  /** Of the keys that begin with "infoproxy:" those of rows stay, and no other key is touched. */
  lemma OthersStay(base: Store, rows: set<Row>, k: string)
    ensures "infoproxy:" <= k ==> (k in Synced(base, rows) <==> exists r :: r in rows && KeyOf(r) == k)
    ensures !("infoproxy:" <= k) ==> (k in Synced(base, rows) <==> k in base)
    ensures !("infoproxy:" <= k) && k in base ==> Synced(base, rows)[k] == base[k]
  {
    WantedIsInfo(rows);
    hide Key, EncodeRule;
  }

  lemma StartOnTop(base: Store)
    ensures OnTop(base, {}, Applied(base, map[]), {}, 0)
  {
    AppliedNothing(base);
    assert Wanted({}) == map[];
    assert base + map[] == base;
  }

  lemma TiersApart(globals: seq<Row>, models: seq<seq<Row>>, devices: seq<seq<Row>>)
    requires Ordered(globals, models, devices)
    ensures Apart(SetOf(globals), SetOf(Concat(models)))
    ensures Apart(SetOf(globals) + SetOf(Concat(models)), SetOf(Concat(devices)))
  {
    hide Contiguous, Concat;
  }

  function Types(rows: set<Row>): set<ProxyType> {
    set r | r in rows :: r.proxyType
  }

  function OfTypes(rows: set<Row>, types: set<ProxyType>): set<Row> {
    set r | r in rows && r.proxyType in types
  }

  lemma GlobalOneMore(rows: set<Row>, r: Row)
    requires r.scope.Global?
    ensures Types(rows + {r}) == Types(rows) + {r.proxyType}
    ensures forall t :: Members(rows + {r}, t, Global) == Members(rows, t, Global) + if t == r.proxyType then {EncodeRule(r.rule)} else {}
    ensures r.proxyType !in Types(rows) ==> Members(rows, r.proxyType, Global) == {}
  {
    hide EncodeRule;
  }

  lemma TypeIsScope(all: set<Row>, left: set<ProxyType>, t: ProxyType)
    requires t in left && t in Types(all) && forall r | r in all :: r.scope.Global?
    ensures ScopeOpen(all - OfTypes(all, left), OfTypes(all, {t}), t, Global, Members(all, t, Global))
    ensures all - OfTypes(all, left) + OfTypes(all, {t}) == all - OfTypes(all, left - {t})
  {
    hide EncodeRule;
    var r :| r in all && r.proxyType == t;
    assert r in OfTypes(all, {t});
    assert Members(OfTypes(all, {t}), t, Global) == Members(all, t, Global);
  }

  /** The rows not yet seen: the rest of a batch and the batches after it. */
  ghost predicate Left(rows: seq<Row>, seen: nat, batch: seq<Row>, more: seq<seq<Row>>) {
    seen <= |rows| && rows[seen..] == batch + Concat(more)
  }

  lemma StreamStarts(rows: seq<Row>, batches: seq<seq<Row>>, earlier: set<Row>)
    requires rows == Concat(batches)
    ensures Left(rows, 0, [], batches[0..]) && Collecting(rows, 0, earlier, earlier, {}, None, {})
  {
    assert batches[0..] == batches && rows[0..] == [] + rows;
    assert SetOf(rows[..0]) == {};
  }

  lemma BatchStarts(rows: seq<Row>, seen: nat, batches: seq<seq<Row>>, b: nat)
    requires b < |batches| && Left(rows, seen, [], batches[b..])
    ensures Left(rows, seen, batches[b], batches[b + 1..])
  {
    assert batches[b..][1..] == batches[b + 1..];
    assert [] + Concat(batches[b..]) == Concat(batches[b..]);
  }

  lemma RowIsNext(rows: seq<Row>, seen: nat, batch: seq<Row>, i: nat, more: seq<seq<Row>>)
    requires i < |batch| && Left(rows, seen, batch[i..], more)
    ensures seen < |rows| && rows[seen] == batch[i] && Left(rows, seen + 1, batch[i + 1..], more)
  {
    hide Concat;
    assert rows[seen..][0] == batch[i];
    assert rows[seen..][1..] == batch[i + 1..] + Concat(more);
  }

  lemma AllSeen(rows: seq<Row>, seen: nat, batches: seq<seq<Row>>, earlier: set<Row>, done: set<Row>, open: set<Row>,
                cur: Option<(ProxyType, Scope)>, members: set<string>)
    requires Left(rows, seen, [], batches[|batches|..]) && Collecting(rows, seen, earlier, done, open, cur, members)
    ensures done + open == earlier + SetOf(rows)
    ensures if cur.Some? then ScopeOpen(done, open, cur.value.0, cur.value.1, members) else done == earlier + SetOf(rows)
  {
    assert rows[seen..] == [] && rows[..seen] == rows;
  }

  lemma SeenOneMore(rows: seq<Row>, seen: nat)
    requires seen < |rows|
    ensures SetOf(rows[..seen + 1]) == SetOf(rows[..seen]) + {rows[seen]}
  {
    assert rows[..seen + 1] == rows[..seen] + [rows[seen]];
  }

  lemma SameScopeRow(rows: seq<Row>, seen: nat, earlier: set<Row>, done: set<Row>, open: set<Row>,
                     cur: Option<(ProxyType, Scope)>, members: set<string>)
    requires seen < |rows| && Collecting(rows, seen, earlier, done, open, cur, members)
    requires cur == Some((rows[seen].proxyType, rows[seen].scope))
    ensures Collecting(rows, seen + 1, earlier, done, open + {rows[seen]}, cur, members + {EncodeRule(rows[seen].rule)})
  {
    hide EncodeRule, SetOf;
    SeenOneMore(rows, seen);
    assert done + (open + {rows[seen]}) == done + open + {rows[seen]};
    assert earlier + SetOf(rows[..seen]) + {rows[seen]} == earlier + SetOf(rows[..seen + 1]);
    assert Members(open + {rows[seen]}, cur.value.0, cur.value.1) == members + {EncodeRule(rows[seen].rule)};
  }

  lemma ScopeIsNew(rows: seq<Row>, seen: nat, earlier: set<Row>, done: set<Row>, open: set<Row>,
                   cur: Option<(ProxyType, Scope)>, members: set<string>)
    requires seen < |rows| && Collecting(rows, seen, earlier, done, open, cur, members)
    requires Contiguous(rows) && Apart(earlier, SetOf(rows))
    requires cur != Some((rows[seen].proxyType, rows[seen].scope))
    ensures forall q | q in done + open :: !InScope(q, rows[seen].proxyType, rows[seen].scope)
  {
    hide Members;
    if 0 < seen {
      NewScope(rows, seen);
    }
    hide Contiguous;
    assert rows[seen] in SetOf(rows);
    forall q | q in earlier + SetOf(rows[..seen])
      ensures !InScope(q, rows[seen].proxyType, rows[seen].scope)
    {}
  }

  lemma NewScopeRow(rows: seq<Row>, seen: nat, earlier: set<Row>, done: set<Row>, open: set<Row>,
                    cur: Option<(ProxyType, Scope)>, members: set<string>)
    requires seen < |rows| && Collecting(rows, seen, earlier, done, open, cur, members)
    requires Contiguous(rows) && Apart(earlier, SetOf(rows))
    requires cur != Some((rows[seen].proxyType, rows[seen].scope))
    ensures var r := rows[seen];
      Collecting(rows, seen + 1, earlier, done + open, {r}, Some((r.proxyType, r.scope)), {EncodeRule(r.rule)})
  {
    ScopeIsNew(rows, seen, earlier, done, open, cur, members);
    hide EncodeRule, Contiguous, Apart, SetOf;
    var r := rows[seen];
    OpensScope(done + open, r);
    hide ScopeOpen;
    SeenOneMore(rows, seen);
    assert done + open + {r} == earlier + SetOf(rows[..seen + 1]);
  }

  lemma OpensScope(done: set<Row>, r: Row)
    requires forall q | q in done :: !InScope(q, r.proxyType, r.scope)
    ensures ScopeOpen(done, {r}, r.proxyType, r.scope, {EncodeRule(r.rule)})
  {
    hide EncodeRule;
    assert Members({r}, r.proxyType, r.scope) == {EncodeRule(r.rule)};
  }

  lemma Overlaid(base: Store, w: Store, k: string, members: set<string>)
    ensures base + w[k := members] == (base + w)[k := members]
  {}

  lemma MembersSome(rows: set<Row>, t: ProxyType, s: Scope)
    requires rows != {} && forall r | r in rows :: InScope(r, t, s)
    ensures Members(rows, t, s) != {}
  {
    var r :| r in rows;
    assert EncodeRule(r.rule) in Members(rows, t, s);
  }

  lemma ServedOne(store: Store, inFlight: Store, k: string)
    requires k in inFlight
    ensures Applied(Exec(store, k, inFlight[k]), inFlight - {k}) == Applied(store, inFlight)
  {}

  lemma Dispatched(store: Store, inFlight: Store, key: string, members: set<string>)
    ensures Applied(store, inFlight[key := members]) == Exec(Applied(store, inFlight), key, members)
  {}

  lemma AppliedNothing(store: Store)
    ensures Applied(store, map[]) == store
  {}
}
