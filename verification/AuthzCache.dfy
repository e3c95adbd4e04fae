/**
 The authorization signature cache: one Valkey server holding a generation counter and
 generation-keyed signatures, several portal processes each with a memo of the generation,
 lookups and grant edits interleaving at every await.
 */
module AuthzCache {
  import opened Wrappers

  type Process = nat
  type TaskId = nat

  /** How long a process reuses its memo of the generation, in milliseconds. */
  const GEN_SOFT_MS: nat := 5000

  /** What a signature is asked for: resource type, verb and the digest of the sorted group ids. */
  datatype Query = Query(resourceType: string, verb: string, groups: string)

  datatype SigKey = SigKey(gen: nat, query: Query)

  /** A signature, identified by its query and by how many edits the database held when it was computed. */
  datatype Sig = Sig(query: Query, version: nat)

  datatype Memo = Memo(v: nat, at: nat)

  /** Where a call of `scopeSignature` stands; `at` is the clock read before asking Valkey. */
  datatype Step =
    | Begin
    | Asking(at: nat)
    | Unset(at: nat)
    | Answered(at: nat, v: nat)
    | HasGen(g: nat)
    | Missed(g: nat)
    | Computed(g: nat, sig: Sig)
    | Returned(sig: Sig)

  datatype Lookup = Lookup(process: Process, query: Query, start: nat, step: Step)

  /** A grant edit after its commit; `cleared` once `bumpAuthzGen` has dropped the memo. */
  datatype Edit = Edit(process: Process, index: nat, cleared: bool)

  /** History: the bump of edit number `edit` produced generation `gen` at time `at`. */
  datatype Bump = Bump(edit: nat, gen: nat, at: nat)

  datatype State = State(
    now: nat,
    gen: Option<nat>,
    sigs: map<SigKey, Sig>,
    commits: nat,
    memos: map<Process, Memo>,
    lookups: map<TaskId, Lookup>,
    edits: map<TaskId, Edit>,
    bumps: set<Bump>)

  datatype Event =
    | Start(t: TaskId, p: Process, q: Query)
    | ReadMemo(t: TaskId)
    | GetGen(t: TaskId)
    | SetGen(t: TaskId)
    | WriteMemo(t: TaskId)
    | GetSig(t: TaskId)
    | Select(t: TaskId)
    | SetSig(t: TaskId)
    | Commit(t: TaskId, p: Process)
    | DropMemo(t: TaskId)
    | Incr(t: TaskId)
    | Forget(p: Process)
    | ExpireSig(key: SigKey)
    | Pass(ms: nat)

  function Init(gen: Option<nat>): State {
    State(0, gen, map[], 0, map[], map[], map[], {})
  }

  predicate Enabled(s: State, e: Event) {
    match e
    case Start(t, p, q) => t !in s.lookups
    case ReadMemo(t) => t in s.lookups && s.lookups[t].step.Begin?
    case GetGen(t) => t in s.lookups && s.lookups[t].step.Asking?
    case SetGen(t) => t in s.lookups && s.lookups[t].step.Unset?
    case WriteMemo(t) => t in s.lookups && s.lookups[t].step.Answered?
    case GetSig(t) => t in s.lookups && s.lookups[t].step.HasGen?
    case Select(t) => t in s.lookups && s.lookups[t].step.Missed?
    case SetSig(t) => t in s.lookups && s.lookups[t].step.Computed?
    case Commit(t, p) => t !in s.edits
    case DropMemo(t) => t in s.edits && !s.edits[t].cleared
    case Incr(t) => t in s.edits && s.edits[t].cleared
    case Forget(p) => true
    case ExpireSig(key) => true
    case Pass(ms) => true
  }

  /** `Number(v) || 1` */
  function OrOne(v: nat): nat {
    if v == 0 then 1 else v
  }

  function Goto(s: State, t: TaskId, step: Step): map<TaskId, Lookup>
    requires t in s.lookups
  {
    s.lookups[t := s.lookups[t].(step := step)]
  }

  function Next(s: State, e: Event): State
    requires Enabled(s, e)
  {
    match e
    case Start(t, p, q) => s.(lookups := s.lookups[t := Lookup(p, q, s.now, Begin)])
    case ReadMemo(t) =>
      var p := s.lookups[t].process;
      if p in s.memos && s.now - s.memos[p].at < GEN_SOFT_MS then
        s.(lookups := Goto(s, t, HasGen(s.memos[p].v)))
      else
        s.(lookups := Goto(s, t, Asking(s.now)))
    case GetGen(t) =>
      var at := s.lookups[t].step.at;
      s.(lookups := Goto(s, t, if s.gen.Some? then Answered(at, s.gen.value) else Unset(at)))
    case SetGen(t) =>
      s.(gen := Some(1), lookups := Goto(s, t, Answered(s.lookups[t].step.at, 1)))
    case WriteMemo(t) =>
      var n := OrOne(s.lookups[t].step.v);
      s.(memos := s.memos[s.lookups[t].process := Memo(n, s.lookups[t].step.at)],
         lookups := Goto(s, t, HasGen(n)))
    case GetSig(t) =>
      var key := SigKey(s.lookups[t].step.g, s.lookups[t].query);
      s.(lookups := Goto(s, t, if key in s.sigs then Returned(s.sigs[key]) else Missed(key.gen)))
    case Select(t) =>
      s.(lookups := Goto(s, t, Computed(s.lookups[t].step.g, Sig(s.lookups[t].query, s.commits))))
    case SetSig(t) =>
      var sig := s.lookups[t].step.sig;
      s.(sigs := s.sigs[SigKey(s.lookups[t].step.g, s.lookups[t].query) := sig],
         lookups := Goto(s, t, Returned(sig)))
    case Commit(t, p) => s.(edits := s.edits[t := Edit(p, s.commits, false)], commits := s.commits + 1)
    case DropMemo(t) =>
      s.(memos := s.memos - {s.edits[t].process}, edits := s.edits[t := s.edits[t].(cleared := true)])
    case Incr(t) =>
      var g := (if s.gen.Some? then s.gen.value else 0) + 1;
      s.(gen := Some(g), bumps := s.bumps + {Bump(s.edits[t].index, g, s.now)}, edits := s.edits - {t})
    case Forget(p) => s.(memos := s.memos - {p})
    case ExpireSig(key) => s.(sigs := s.sigs - {key})
    case Pass(ms) => s.(now := s.now + ms)
  }

  predicate Runs(s: State, evs: seq<Event>)
    decreases |evs|
  {
    evs == [] || (Enabled(s, evs[0]) && Runs(Next(s, evs[0]), evs[1..]))
  }

  function Run(s: State, evs: seq<Event>): State
    requires Runs(s, evs)
    decreases |evs|
  {
    if evs == [] then s else Run(Next(s, evs[0]), evs[1..])
  }

  // ---- What the generation guarantees ----

  /** A database of `version` edits holds every edit whose bump produced a generation up to `g`. */
  ghost predicate Covers(s: State, g: nat, version: nat) {
    forall b <- s.bumps | b.gen <= g :: b.edit < version
  }

  /** A lookup that started at `start` may use generation `g`: it is no older than any bump a memo lifetime before. */
  ghost predicate GenFresh(s: State, g: nat, start: nat) {
    forall b <- s.bumps | b.at + 5000 <= start :: b.gen <= g
  }

  ghost predicate SigFresh(s: State, version: nat, start: nat) {
    forall b <- s.bumps | b.at + 5000 <= start :: b.edit < version
  }

  /** `v` was read from Valkey no earlier than `at`. */
  ghost predicate ReadSince(s: State, v: nat, at: nat) {
    at <= s.now && (forall b <- s.bumps | b.at < at :: b.gen <= v)
  }

  /** Every stored signature was computed from a database holding every edit its generation stands for. */
  ghost predicate StoredCovers(s: State) {
    forall key <- s.sigs :: s.sigs[key].query == key.query && Covers(s, key.gen, s.sigs[key].version)
  }

  /** No lookup answers with a signature older than an edit bumped a memo lifetime before it started. */
  ghost predicate AnswersFresh(s: State) {
    forall t <- s.lookups | s.lookups[t].step.Returned? ::
      && s.lookups[t].step.sig.query == s.lookups[t].query
      && SigFresh(s, s.lookups[t].step.sig.version, s.lookups[t].start)
  }

  ghost predicate GenSet(s: State) {
    s.gen.Some? && 1 <= s.gen.value
  }

  ghost predicate BumpsDone(s: State)
    requires GenSet(s)
  {
    && (forall b <- s.bumps :: b.edit < s.commits && b.gen <= s.gen.value && b.at <= s.now)
    && (forall t <- s.edits :: s.edits[t].index < s.commits)
  }

  ghost predicate MemosRead(s: State)
    requires GenSet(s)
  {
    forall p <- s.memos :: s.memos[p].v <= s.gen.value && ReadSince(s, s.memos[p].v, s.memos[p].at)
  }

  ghost predicate LookupInv(s: State, l: Lookup)
    requires GenSet(s)
  {
    && l.start <= s.now
    && match l.step
       case Begin => true
       case Asking(at) => l.start <= at <= s.now
       case Unset(at) => false
       case Answered(at, v) => l.start <= at && 1 <= v <= s.gen.value && ReadSince(s, v, at)
       case HasGen(g) => g <= s.gen.value && GenFresh(s, g, l.start)
       case Missed(g) => g <= s.gen.value && GenFresh(s, g, l.start)
       case Computed(g, sig) =>
         && g <= s.gen.value && GenFresh(s, g, l.start)
         && sig.query == l.query && Covers(s, g, sig.version)
       case Returned(sig) => sig.query == l.query && SigFresh(s, sig.version, l.start)
  }

  ghost predicate StoredInv(s: State)
    requires GenSet(s)
  {
    StoredCovers(s) && forall key <- s.sigs :: key.gen <= s.gen.value
  }

  ghost predicate Inv(s: State) {
    && GenSet(s) && BumpsDone(s) && MemosRead(s) && StoredInv(s)
    && (forall t <- s.lookups :: LookupInv(s, s.lookups[t]))
  }

  lemma BumpsKept(s: State, e: Event)
    requires GenSet(s) && BumpsDone(s) && Enabled(s, e) && !e.SetGen?
    ensures GenSet(Next(s, e)) && BumpsDone(Next(s, e)) && s.gen.value <= Next(s, e).gen.value
    ensures !e.Incr? ==> Next(s, e).bumps == s.bumps
  {}

  /** A new bump is later than everything read so far, and its generation larger. */
  lemma NewBump(s: State, e: Event, b: Bump)
    requires GenSet(s) && BumpsDone(s) && Enabled(s, e) && !e.SetGen?
    requires b in Next(s, e).bumps && b !in s.bumps
    ensures e.Incr? && b.at == s.now && s.gen.value < b.gen && Next(s, e).now == s.now
  {}

  lemma MemosKept(s: State, e: Event)
    requires Inv(s) && Enabled(s, e)
    ensures !e.SetGen? && GenSet(Next(s, e)) && MemosRead(Next(s, e))
  {
    assert e.SetGen? ==> LookupInv(s, s.lookups[e.t]);
    BumpsKept(s, e);
    var s' := Next(s, e);
    forall p <- s'.memos ensures s'.memos[p].v <= s'.gen.value && ReadSince(s', s'.memos[p].v, s'.memos[p].at) {
      if e.WriteMemo? && s.lookups[e.t].process == p {
        assert LookupInv(s, s.lookups[e.t]);
      } else {
        assert p in s.memos && s'.memos[p] == s.memos[p];
      }
      forall b <- s'.bumps | b.at < s'.memos[p].at ensures b.gen <= s'.memos[p].v {
        if b !in s.bumps { NewBump(s, e, b); }
      }
    }
  }

  lemma StoredKept(s: State, e: Event)
    requires Inv(s) && Enabled(s, e) && !e.SetGen?
    ensures GenSet(Next(s, e)) && StoredInv(Next(s, e))
  {
    BumpsKept(s, e);
    var s' := Next(s, e);
    forall key <- s'.sigs
      ensures s'.sigs[key].query == key.query && key.gen <= s'.gen.value
      ensures Covers(s', key.gen, s'.sigs[key].version)
    {
      if e.SetSig? && key == SigKey(s.lookups[e.t].step.g, s.lookups[e.t].query) {
        assert LookupInv(s, s.lookups[e.t]);
      } else {
        assert key in s.sigs && s'.sigs[key] == s.sigs[key];
      }
      assert key.gen <= s.gen.value;
      forall b <- s'.bumps | b.gen <= key.gen ensures b.edit < s'.sigs[key].version {
        if b !in s.bumps { NewBump(s, e, b); }
      }
    }
  }

  /** A lookup that does not move keeps its promise: later bumps carry larger generations and later times. */
  lemma IdleLookupKept(s: State, e: Event, l: Lookup)
    requires Inv(s) && Enabled(s, e) && !e.SetGen? && LookupInv(s, l)
    ensures GenSet(Next(s, e)) && LookupInv(Next(s, e), l)
  {
    BumpsKept(s, e);
    forall b | b in Next(s, e).bumps && b !in s.bumps ensures b.at == s.now && s.gen.value < b.gen {
      NewBump(s, e, b);
    }
  }

  lemma MovingLookupKept(s: State, e: Event)
    requires Inv(s) && Enabled(s, e) && !e.SetGen?
    requires e.Start? || e.ReadMemo? || e.GetGen? || e.WriteMemo? || e.GetSig? || e.Select? || e.SetSig?
    ensures GenSet(Next(s, e)) && LookupInv(Next(s, e), Next(s, e).lookups[e.t])
  {
    var s' := Next(s, e);
    if !e.Start? {
      assert LookupInv(s, s.lookups[e.t]);
    }
  }

  lemma InvKept(s: State, e: Event)
    requires Inv(s) && Enabled(s, e)
    ensures Inv(Next(s, e))
  {
    MemosKept(s, e);
    BumpsKept(s, e);
    StoredKept(s, e);
    var s' := Next(s, e);
    forall t <- s'.lookups ensures LookupInv(s', s'.lookups[t]) {
      if t in s.lookups && s'.lookups[t] == s.lookups[t] {
        IdleLookupKept(s, e, s.lookups[t]);
      } else {
        MovingLookupKept(s, e);
      }
    }
  }

  lemma {:induction false} RunKeepsInv(s: State, evs: seq<Event>)
    requires Inv(s) && Runs(s, evs)
    ensures Inv(Run(s, evs))
    decreases |evs|
  {
    if evs != [] {
      InvKept(s, evs[0]);
      RunKeepsInv(Next(s, evs[0]), evs[1..]);
    }
  }

  ghost predicate Safe(s: State) {
    StoredCovers(s) && AnswersFresh(s)
  }

  lemma InvIsSafe(s: State)
    requires Inv(s)
    ensures Safe(s)
  {
    forall t <- s.lookups | s.lookups[t].step.Returned?
      ensures s.lookups[t].step.sig.query == s.lookups[t].query
      ensures SigFresh(s, s.lookups[t].step.sig.version, s.lookups[t].start)
    {
      assert LookupInv(s, s.lookups[t]);
    }
  }

  lemma InitialisedIsSafe(gen: nat, evs: seq<Event>)
    requires 1 <= gen && Runs(Init(Some(gen)), evs)
    ensures Safe(Run(Init(Some(gen)), evs))
  {
    RunKeepsInv(Init(Some(gen)), evs);
    InvIsSafe(Run(Init(Some(gen)), evs));
  }

  // ---- Where the guarantee stops ----

  ghost predicate Reach(s0: State, s: State) {
    exists evs :: Runs(s0, evs) && Run(s0, evs) == s
  }

  lemma {:induction false} RunSnoc(s: State, evs: seq<Event>, e: Event)
    requires Runs(s, evs) && Enabled(Run(s, evs), e)
    ensures Runs(s, evs + [e]) && Run(s, evs + [e]) == Next(Run(s, evs), e)
    decreases |evs|
  {
    if evs == [] {
      assert evs + [e] == [e];
      assert Runs(Next(s, e), []);
    } else {
      RunSnoc(Next(s, evs[0]), evs[1..], e);
      assert (evs + [e])[0] == evs[0] && (evs + [e])[1..] == evs[1..] + [e];
    }
  }

  lemma Go(s0: State, s: State, e: Event)
    requires Reach(s0, s) && Enabled(s, e)
    ensures Reach(s0, Next(s, e))
  {
    var evs :| Runs(s0, evs) && Run(s0, evs) == s;
    RunSnoc(s0, evs, e);
  }

  lemma Go3(s0: State, s: State, e1: Event, e2: Event, e3: Event)
    requires Reach(s0, s) && Enabled(s, e1)
    requires var s1 := Next(s, e1); Enabled(s1, e2) && Enabled(Next(s1, e2), e3)
    ensures Reach(s0, Next(Next(Next(s, e1), e2), e3))
  {
    Go(s0, s, e1);
    Go(s0, Next(s, e1), e2);
    Go(s0, Next(Next(s, e1), e2), e3);
  }

  /** Task 0 of process 0 has stored the signature of the empty database under generation 1. */
  function Warm(gen: nat, q: Query, others: map<TaskId, Lookup>): State {
    State(0, Some(gen), map[SigKey(1, q) := Sig(q, 0)], 0, map[0 := Memo(1, 0)],
          others[0 := Lookup(0, q, 0, Returned(Sig(q, 0)))], map[], {})
  }

  lemma WarmUp(s0: State, gen: nat, q: Query, others: map<TaskId, Lookup>)
    requires gen <= 1 && 0 !in others
    requires Reach(s0, State(0, Some(gen), map[], 0, map[], others[0 := Lookup(0, q, 0, Answered(0, gen))], map[], {}))
    ensures Reach(s0, Warm(gen, q, others))
  {
    hide Reach;
    var a := State(0, Some(gen), map[], 0, map[], others[0 := Lookup(0, q, 0, Answered(0, gen))], map[], {});
    Go3(s0, a, WriteMemo(0), GetSig(0), Select(0));
    var b := Next(Next(Next(a, WriteMemo(0)), GetSig(0)), Select(0));
    assert b == State(0, Some(gen), map[], 0, map[0 := Memo(1, 0)],
                      others[0 := Lookup(0, q, 0, Computed(1, Sig(q, 0)))], map[], {});
    Go(s0, b, SetSig(0));
    assert Next(b, SetSig(0)) == Warm(gen, q, others);
  }

  /** Process 1 commits edit number 0 and bumps; then `ms` milliseconds pass. */
  function Edited(gen: nat, q: Query, others: map<TaskId, Lookup>, ms: nat): State {
    Warm(gen, q, others).(gen := Some(gen + 1), commits := 1, bumps := {Bump(0, gen + 1, 0)}, now := ms)
  }

  lemma EditAndWait(s0: State, gen: nat, q: Query, others: map<TaskId, Lookup>, ms: nat)
    requires Reach(s0, Warm(gen, q, others))
    ensures Reach(s0, Edited(gen, q, others, ms))
  {
    hide Reach;
    var w := Warm(gen, q, others);
    Go3(s0, w, Commit(0, 1), DropMemo(0), Incr(0));
    var b := Next(Next(Next(w, Commit(0, 1)), DropMemo(0)), Incr(0));
    assert b == Edited(gen, q, others, 0);
    Go(s0, b, Pass(ms));
  }

  /** A fresh lookup of process 0 that ends up with generation 1 returns the stored signature. */
  lemma StaleHit(s0: State, s: State, t: TaskId, q: Query)
    requires Reach(s0, s) && t in s.lookups && s.lookups[t] == Lookup(0, q, s.now, HasGen(1))
    requires SigKey(1, q) in s.sigs && s.sigs[SigKey(1, q)] == Sig(q, 0)
    requires exists b <- s.bumps :: b.edit == 0 && b.at + GEN_SOFT_MS <= s.now
    ensures exists s' :: Reach(s0, s') && !AnswersFresh(s')
  {
    Go(s0, s, GetSig(t));
    var s' := Next(s, GetSig(t));
    assert s'.lookups[t].step == Returned(Sig(q, 0));
  }

  /** A fresh lookup that has to ask Valkey and is told generation 1. */
  lemma AskAndHit(s0: State, s: State, t: TaskId, q: Query)
    requires Reach(s0, s) && t !in s.lookups && s.gen == Some(1)
    requires 0 in s.memos && s.memos[0].at + GEN_SOFT_MS <= s.now
    requires SigKey(1, q) in s.sigs && s.sigs[SigKey(1, q)] == Sig(q, 0)
    requires exists b <- s.bumps :: b.edit == 0 && b.at + GEN_SOFT_MS <= s.now
    ensures exists s' :: Reach(s0, s') && !AnswersFresh(s')
  {
    Go3(s0, s, Start(t, 0, q), ReadMemo(t), GetGen(t));
    var a := Next(Next(Next(s, Start(t, 0, q)), ReadMemo(t)), GetGen(t));
    assert a.lookups[t] == Lookup(0, q, s.now, Answered(s.now, 1));
    Go(s0, a, WriteMemo(t));
    StaleHit(s0, Next(a, WriteMemo(t)), t, q);
  }

  /** Generation "0" is read as 1, and the first bump makes it 1 as well. */
  lemma ZeroGenIsUnsafe(q: Query)
    ensures exists s :: Reach(Init(Some(0)), s) && !AnswersFresh(s)
  {
    var s0 := Init(Some(0));
    assert Run(s0, []) == s0;
    Go3(s0, s0, Start(0, 0, q), ReadMemo(0), GetGen(0));
    var a := Next(Next(Next(s0, Start(0, 0, q)), ReadMemo(0)), GetGen(0));
    assert a.lookups == map[][0 := Lookup(0, q, 0, Answered(0, 0))];
    WarmUp(s0, 0, q, map[]);
    EditAndWait(s0, 0, q, map[], GEN_SOFT_MS);
    AskAndHit(s0, Edited(0, q, map[], GEN_SOFT_MS), 1, q);
  }

  lemma OneSawUnset(q: Query)
    ensures Reach(Init(None), Init(None).(lookups := map[2 := Lookup(2, q, 0, Unset(0))]))
  {
    var s0 := Init(None);
    assert Run(s0, []) == s0;
    Go3(s0, s0, Start(2, 2, q), ReadMemo(2), GetGen(2));
    var a := Next(Next(Next(s0, Start(2, 2, q)), ReadMemo(2)), GetGen(2));
    assert a == s0.(lookups := map[2 := Lookup(2, q, 0, Unset(0))]);
  }

  /** Two lookups that both saw the key unset, one of which has initialised it. */
  lemma BothSawUnset(q: Query)
    ensures var others := map[2 := Lookup(2, q, 0, Unset(0))];
      Reach(Init(None), State(0, Some(1), map[], 0, map[], others[0 := Lookup(0, q, 0, Answered(0, 1))], map[], {}))
  {
    var s0 := Init(None);
    var slow := Lookup(2, q, 0, Unset(0));
    OneSawUnset(q);
    hide Reach;
    var a := s0.(lookups := map[2 := slow]);
    Go3(s0, a, Start(0, 0, q), ReadMemo(0), GetGen(0));
    var b := Next(Next(Next(a, Start(0, 0, q)), ReadMemo(0)), GetGen(0));
    assert b == s0.(lookups := map[2 := slow][0 := Lookup(0, q, 0, Unset(0))]);
    Go(s0, b, SetGen(0));
    assert Next(b, SetGen(0)).lookups == map[2 := slow][0 := Lookup(0, q, 0, Answered(0, 1))];
  }

  /** Two lookups find no generation; the second one's SET takes a later bump back. */
  lemma UnsetGenIsUnsafe(q: Query)
    ensures exists s :: Reach(Init(None), s) && !AnswersFresh(s)
  {
    var s0 := Init(None);
    var slow := Lookup(2, q, 0, Unset(0));
    BothSawUnset(q);
    hide Reach;
    WarmUp(s0, 1, q, map[2 := slow]);
    EditAndWait(s0, 1, q, map[2 := slow], GEN_SOFT_MS);
    var c := Edited(1, q, map[2 := slow], GEN_SOFT_MS);
    Go(s0, c, SetGen(2));
    AskAndHit(s0, Next(c, SetGen(2)), 1, q);
  }

  /**
   The cache is safe in every run if and only if the generation key already holds a positive number
   when the run starts.
   */
  lemma SafeIffInitialised(gen: Option<nat>)
    ensures (forall s :: Reach(Init(gen), s) ==> Safe(s)) <==> (gen.Some? && 1 <= gen.value)
  {
    if gen.Some? && 1 <= gen.value {
      forall s | Reach(Init(gen), s) ensures Safe(s) {
        var evs :| Runs(Init(gen), evs) && Run(Init(gen), evs) == s;
        InitialisedIsSafe(gen.value, evs);
      }
    } else if gen.Some? {
      ZeroGenIsUnsafe(Query("", "", ""));
    } else {
      UnsetGenIsUnsafe(Query("", "", ""));
    }
  }

  lemma WarmReached(q: Query)
    ensures Reach(Init(Some(1)), Warm(1, q, map[]))
  {
    var s0 := Init(Some(1));
    assert Run(s0, []) == s0;
    Go3(s0, s0, Start(0, 0, q), ReadMemo(0), GetGen(0));
    var a := Next(Next(Next(s0, Start(0, 0, q)), ReadMemo(0)), GetGen(0));
    assert a.lookups == map[][0 := Lookup(0, q, 0, Answered(0, 1))];
    WarmUp(s0, 1, q, map[]);
  }

  /** The memo lifetime is a tight bound: any shorter wait can still be answered from before the edit. */
  lemma SoftWindowIsTight(q: Query, ms: nat)
    requires ms < 5000
    ensures exists s, t, b :: (
              && Reach(Init(Some(1)), s) && t in s.lookups && b in s.bumps
              && s.lookups[t].start == b.at + ms && s.lookups[t].step == Returned(Sig(q, b.edit)))
  {
    var s0 := Init(Some(1));
    WarmReached(q);
    EditAndWait(s0, 1, q, map[], ms);
    var c := Edited(1, q, map[], ms);
    Go3(s0, c, Start(1, 0, q), ReadMemo(1), GetSig(1));
    var d := Next(Next(Next(c, Start(1, 0, q)), ReadMemo(1)), GetSig(1));
    assert Bump(0, 2, 0) in d.bumps;
    assert d.lookups[1] == Lookup(0, q, ms, Returned(Sig(q, 0)));
  }

  // ---- A process and its own edits ----

  /** The lookup's generation is that of the bump or later; one that was there before may have an older one. */
  ghost predicate OwnStep(step: Step, b: Bump, before: bool) {
    match step
    case Answered(_, v) => b.gen <= v
    case HasGen(g) => before || b.gen <= g
    case Missed(g) => before || b.gen <= g
    case Computed(g, _) => before || b.gen <= g
    case Returned(sig) => before || b.edit < sig.version
    case _ => true
  }

  ghost predicate OwnFresh(s: State, p: Process, b: Bump, before: set<TaskId>)
    requires GenSet(s)
  {
    && b in s.bumps && b.gen <= s.gen.value && (p in s.memos ==> b.gen <= s.memos[p].v)
    && forall t <- s.lookups | s.lookups[t].process == p :: OwnStep(s.lookups[t].step, b, t in before)
  }

  lemma OwnMoves(s: State, e: Event, p: Process, b: Bump, before: set<TaskId>)
    requires Inv(s) && Enabled(s, e) && !e.SetGen? && OwnFresh(s, p, b, before) && (e.Start? ==> e.t !in before)
    requires e.Start? || e.ReadMemo? || e.GetGen? || e.WriteMemo? || e.GetSig? || e.Select? || e.SetSig?
    requires Next(s, e).lookups[e.t].process == p
    ensures OwnStep(Next(s, e).lookups[e.t].step, b, e.t in before)
  {
    if !e.Start? {
      assert OwnStep(s.lookups[e.t].step, b, e.t in before);
      assert LookupInv(s, s.lookups[e.t]);
    }
  }

  lemma OwnKept(s: State, e: Event, p: Process, b: Bump, before: set<TaskId>)
    requires Inv(s) && Enabled(s, e) && OwnFresh(s, p, b, before) && before <= s.lookups.Keys
    ensures GenSet(Next(s, e)) && OwnFresh(Next(s, e), p, b, before) && before <= Next(s, e).lookups.Keys
  {
    assert e.SetGen? ==> LookupInv(s, s.lookups[e.t]);
    BumpsKept(s, e);
    var s' := Next(s, e);
    forall t <- s'.lookups | s'.lookups[t].process == p
      ensures OwnStep(s'.lookups[t].step, b, t in before)
    {
      if !(t in s.lookups && s'.lookups[t] == s.lookups[t]) {
        OwnMoves(s, e, p, b, before);
      }
    }
    assert e.WriteMemo? ==> OwnStep(s.lookups[e.t].step, b, e.t in before) || s.lookups[e.t].process != p;
  }

  lemma {:induction false} OwnRun(s: State, evs: seq<Event>, p: Process, b: Bump, before: set<TaskId>)
    requires Inv(s) && Runs(s, evs) && OwnFresh(s, p, b, before) && before <= s.lookups.Keys
    ensures GenSet(Run(s, evs)) && OwnFresh(Run(s, evs), p, b, before)
    decreases |evs|
  {
    hide Next, Enabled, Inv, OwnFresh;
    if evs != [] {
      OwnKept(s, evs[0], p, b, before);
      InvKept(s, evs[0]);
      OwnRun(Next(s, evs[0]), evs[1..], p, b, before);
    } else {
      assert GenSet(s) by { GenIsSet(s); }
    }
  }

  lemma GenIsSet(s: State)
    requires Inv(s)
    ensures GenSet(s)
  {}

  /** The process has no memo of the generation, and none of its lookups is about to write one. */
  ghost predicate NoMemoUnderWay(s: State, p: Process) {
    p !in s.memos && forall t <- s.lookups | s.lookups[t].process == p :: !s.lookups[t].step.Asking? && !s.lookups[t].step.Answered?
  }

  /**
   A process whose memo is gone when its bump arrives sees its own edit at once: no lookup it starts
   afterwards, in any run, answers from before the edit, without waiting for the memo lifetime.
   */
  lemma OwnEditSeen(s: State, t: TaskId, evs: seq<Event>, u: TaskId)
    requires Inv(s) && Enabled(s, Incr(t)) && NoMemoUnderWay(s, s.edits[t].process) && Runs(Next(s, Incr(t)), evs)
    ensures var end := Run(Next(s, Incr(t)), evs);
      u in end.lookups && u !in s.lookups && end.lookups[u].process == s.edits[t].process && end.lookups[u].step.Returned? ==>
        s.edits[t].index < end.lookups[u].step.sig.version
  {
    var p, s1 := s.edits[t].process, Next(s, Incr(t));
    var b := Bump(s.edits[t].index, s.gen.value + 1, s.now);
    InvKept(s, Incr(t));
    assert OwnFresh(s1, p, b, s.lookups.Keys);
    OwnRun(s1, evs, p, b, s.lookups.Keys);
  }

  /** Process 0 has committed and dropped its memo, and a lookup of its own has written the memo again. */
  function Refilled(q: Query): State {
    State(0, Some(1), map[SigKey(1, q) := Sig(q, 0)], 1, map[0 := Memo(1, 0)],
          map[0 := Lookup(0, q, 0, Returned(Sig(q, 0))), 1 := Lookup(0, q, 0, HasGen(1))], map[0 := Edit(0, 0, true)], {})
  }

  lemma RefilledReached(q: Query)
    ensures Reach(Init(Some(1)), Refilled(q))
  {
    var s0, w := Init(Some(1)), Warm(1, q, map[]);
    WarmReached(q);
    hide Reach;
    Go3(s0, w, Commit(0, 0), DropMemo(0), Start(1, 0, q));
    var c := Next(Next(Next(w, Commit(0, 0)), DropMemo(0)), Start(1, 0, q));
    assert c == Refilled(q).(memos := map[], lookups := map[][0 := Lookup(0, q, 0, Returned(Sig(q, 0)))][1 := Lookup(0, q, 0, Begin)]);
    Go3(s0, c, ReadMemo(1), GetGen(1), WriteMemo(1));
    var d := Next(Next(Next(c, ReadMemo(1)), GetGen(1)), WriteMemo(1));
    assert d.lookups == Refilled(q).lookups && d.memos == Refilled(q).memos;
  }

  /** A lookup of the same process between the two halves of the bump refills the memo, and the process misses its own edit. */
  lemma OwnEditMissed(q: Query)
    ensures exists s, t: TaskId :: (
              && Reach(Init(Some(1)), Refilled(q)) && Enabled(Refilled(q), Incr(0)) && t !in Refilled(q).lookups
              && Reach(Next(Refilled(q), Incr(0)), s) && t in s.lookups
              && s.lookups[t] == Lookup(Refilled(q).edits[0].process, q, s.now, Returned(Sig(q, Refilled(q).edits[0].index))))
  {
    RefilledReached(q);
    var f := Next(Refilled(q), Incr(0));
    assert Run(f, []) == f;
    Go3(f, f, Start(2, 0, q), ReadMemo(2), GetSig(2));
    var end := Next(Next(Next(f, Start(2, 0, q)), ReadMemo(2)), GetSig(2));
    assert end.lookups[2] == Lookup(0, q, 0, Returned(Sig(q, 0)));
  }

  // ---- The portal's code between two awaits ----

  /** Valkey, the database and the module variables of every portal process. */
  class Portal {
    var now: nat
    var gen: Option<nat>
    var sigs: map<SigKey, Sig>
    var commits: nat
    var genCache: map<Process, Memo>
    var lookups: map<TaskId, Lookup>
    var edits: map<TaskId, Edit>
    ghost var bumps: set<Bump>

    ghost function View(): State
      reads this
    {
      State(now, gen, sigs, commits, genCache, lookups, edits, bumps)
    }

    constructor (gen: Option<nat>)
      ensures View() == Init(gen)
    {
      this.gen := gen;
      now, sigs, commits, genCache, lookups, edits, bumps := 0, map[], 0, map[], map[], map[], {};
    }

    /** `scopeSignature` is called, and `authzGen` looks at the process memo some time later. */
    method CallScopeSignature(t: TaskId, p: Process, q: Query)
      requires t !in lookups
      modifies this
      ensures View() == Next(old(View()), Start(t, p, q))
    {
      lookups := lookups[t := Lookup(p, q, now, Begin)];
    }

    method AuthzGen(t: TaskId)
      requires Enabled(View(), ReadMemo(t))
      modifies this
      ensures View() == Next(old(View()), ReadMemo(t))
    {
      var l := lookups[t];
      var memo := if l.process in genCache then Some(genCache[l.process]) else None;
      if memo.Some? && now - memo.value.at < GEN_SOFT_MS {
        lookups := lookups[t := l.(step := HasGen(memo.value.v))];
      } else {
        lookups := lookups[t := l.(step := Asking(now))];
      }
    }

    /** Valkey answers the GET of the generation key; a missing key is then set to "1". */
    method AuthzGenAnswer(t: TaskId)
      requires Enabled(View(), GetGen(t))
      modifies this
      ensures View() == Next(old(View()), GetGen(t))
    {
      var l := lookups[t];
      match gen
      case Some(v) => lookups := lookups[t := l.(step := Answered(l.step.at, v))];
      case None => lookups := lookups[t := l.(step := Unset(l.step.at))];
    }

    method AuthzGenInit(t: TaskId)
      requires Enabled(View(), SetGen(t))
      modifies this
      ensures View() == Next(old(View()), SetGen(t))
    {
      gen := Some(1);
      lookups := lookups[t := lookups[t].(step := Answered(lookups[t].step.at, 1))];
    }

    method AuthzGenDone(t: TaskId)
      requires Enabled(View(), WriteMemo(t))
      modifies this
      ensures View() == Next(old(View()), WriteMemo(t))
    {
      var l := lookups[t];
      var n := OrOne(l.step.v);
      genCache := genCache[l.process := Memo(n, l.step.at)];
      lookups := lookups[t := l.(step := HasGen(n))];
    }

    method CacheGet(t: TaskId) returns (hit: Option<Sig>)
      requires Enabled(View(), GetSig(t))
      modifies this
      ensures View() == Next(old(View()), GetSig(t))
      ensures hit.Some? ==> lookups[t].step == Returned(hit.value)
      ensures hit.None? ==> lookups[t].step.Missed?
    {
      var l := lookups[t];
      var key := SigKey(l.step.g, l.query);
      hit := if key in sigs then Some(sigs[key]) else None;
      lookups := lookups[t := l.(step := if hit.Some? then Returned(hit.value) else Missed(key.gen))];
    }

    method SelectScopes(t: TaskId)
      requires Enabled(View(), Select(t))
      modifies this
      ensures View() == Next(old(View()), Select(t))
    {
      var l := lookups[t];
      lookups := lookups[t := l.(step := Computed(l.step.g, Sig(l.query, commits)))];
    }

    method CacheSet(t: TaskId)
      requires Enabled(View(), SetSig(t))
      modifies this
      ensures View() == Next(old(View()), SetSig(t))
    {
      var l := lookups[t];
      sigs := sigs[SigKey(l.step.g, l.query) := l.step.sig];
      lookups := lookups[t := l.(step := Returned(l.step.sig))];
    }

    /** A grant edit commits; `bumpAuthzGen` then drops the memo and increments the generation. */
    method CommitEdit(t: TaskId, p: Process)
      requires t !in edits
      modifies this
      ensures View() == Next(old(View()), Commit(t, p))
    {
      edits := edits[t := Edit(p, commits, false)];
      commits := commits + 1;
    }

    method BumpDropMemo(t: TaskId)
      requires Enabled(View(), DropMemo(t))
      modifies this
      ensures View() == Next(old(View()), DropMemo(t))
    {
      genCache := genCache - {edits[t].process};
      edits := edits[t := edits[t].(cleared := true)];
    }

    method BumpIncr(t: TaskId)
      requires Enabled(View(), Incr(t))
      modifies this
      ensures View() == Next(old(View()), Incr(t))
    {
      var g := (if gen.Some? then gen.value else 0) + 1;
      gen := Some(g);
      bumps := bumps + {Bump(edits[t].index, g, now)};
      edits := edits - {t};
    }

    /** A process restarts with an empty memo. */
    method Restart(p: Process)
      modifies this
      ensures View() == Next(old(View()), Forget(p))
    {
      genCache := genCache - {p};
    }

    /** Valkey drops an entry whose time to live is over. */
    method Expire(key: SigKey)
      modifies this
      ensures View() == Next(old(View()), ExpireSig(key))
    {
      sigs := sigs - {key};
    }

    method Tick(ms: nat)
      modifies this
      ensures View() == Next(old(View()), Pass(ms))
    {
      now := now + ms;
    }

    /** The step that runs next, of whichever process it is. */
    method Perform(e: Event)
      requires Enabled(View(), e)
      modifies this
      ensures View() == Next(old(View()), e)
    {
      hide Next;
      match e
      case Start(t, p, q) => CallScopeSignature(t, p, q);
      case ReadMemo(t) => AuthzGen(t);
      case GetGen(t) => AuthzGenAnswer(t);
      case SetGen(t) => AuthzGenInit(t);
      case WriteMemo(t) => AuthzGenDone(t);
      case GetSig(t) => var _ := CacheGet(t);
      case Select(t) => SelectScopes(t);
      case SetSig(t) => CacheSet(t);
      case Commit(t, p) => CommitEdit(t, p);
      case DropMemo(t) => BumpDropMemo(t);
      case Incr(t) => BumpIncr(t);
      case Forget(p) => Restart(p);
      case ExpireSig(key) => Expire(key);
      case Pass(ms) => Tick(ms);
    }

    /** Under any interleaving the variables follow the machine, and the cache answers safely. */
    method Drive(evs: seq<Event>)
      requires Inv(View()) && Runs(View(), evs)
      modifies this
      ensures View() == Run(old(View()), evs) && Safe(View())
    {
      hide Next;
      hide Enabled;
      hide Inv;
      for i := 0 to |evs|
        invariant Inv(View()) && Runs(View(), evs[i..])
        invariant Run(View(), evs[i..]) == Run(old(View()), evs)
      {
        assert evs[i..][0] == evs[i] && evs[i..][1..] == evs[i + 1..];
        InvKept(View(), evs[i]);
        Perform(evs[i]);
      }
      InvIsSafe(View());
    }
  }
}
