/**
 The sixteen loopback slots of the client: requests claim them, bind their ports, and hand them to
 idle monitors, with requests and monitors interleaving freely.
 */
module Slots {
  import opened Wrappers
  import Text

  const SLOT_COUNT: nat := 16
  const MIN_IDLE: nat := 10

  /** `slot_ip` */
  function SlotIp(idx: nat): string {
    "127.0.0." + Text.Str(idx + 2)
  }

  /** Loopback addresses from 127.0.0.2 to 127.0.0.17. */
  lemma SlotIpMeans(idx: nat)
    requires idx < SLOT_COUNT
    ensures Text.Split(SlotIp(idx), '.') == ["127", "0", "0", Text.Str(idx + 2)]
    ensures SlotIp(0) == "127.0.0.2" && SlotIp(15) == "127.0.0.17"
  {
    Octets(Text.Str(idx + 2));
    if '.' in Text.Str(idx + 2) { Text.StrHasDigits(idx + 2, '.'); }
    var parts := ["127", "0", "0", Text.Str(idx + 2)];
    assert forall i | 0 <= i < |parts| :: '.' !in parts[i];
    Text.SplitInvertsJoin(parts, '.');
    Text.StrUnfolds(2);
    Text.StrUnfolds(17);
    Text.StrUnfolds(1);
    hide Text.Str, Text.Split, Text.Join;
  }

  lemma Octets(last: string)
    ensures Text.Join(["127", "0", "0", last], '.') == "127.0.0." + last
  {
    assert ["127", "0", "0", last][1..] == ["0", "0", last] && ["0", "0", last][1..] == ["0", last] && ["0", last][1..] == [last];
    assert Text.Join([last], '.') == last && Text.Join(["0", last], '.') == "0" + (['.'] + last);
    assert Text.Join(["0", "0", last], '.') == "0" + (['.'] + ("0" + (['.'] + last)));
  }

  lemma SlotIpInjective(i: nat, j: nat)
    requires SlotIp(i) == SlotIp(j)
    ensures i == j
  {
    hide Text.Str;
    assert SlotIp(i)[8..] == Text.Str(i + 2) && SlotIp(j)[8..] == Text.Str(j + 2);
    Text.StrInjective(i + 2, j + 2);
  }

  function Max(a: nat, b: nat): nat {
    if a < b then b else a
  }

  // ---- The slot manager ----

  /** The first free slot at `i` or later. */
  function FirstFree(taken: seq<bool>, i: nat): (r: Option<nat>)
    ensures r.Some? ==> i <= r.value < |taken| && !taken[r.value] && forall j | i <= j < r.value :: taken[j]
    ensures r.None? ==> forall j | i <= j < |taken| :: taken[j]
    decreases |taken| - i
  {
    if |taken| <= i then None else if !taken[i] then Some(i) else FirstFree(taken, i + 1)
  }

  /** The tasks started for a claimed slot. */
  datatype SlotData = SlotData(handles: seq<nat>)

  class SlotManager {
    const slots: array<Option<SlotData>>
    var aborted: set<nat>

    constructor ()
      ensures fresh(slots) && slots.Length == SLOT_COUNT && Taken() == seq(SLOT_COUNT, _ => false)
    {
      slots := new Option<SlotData>[SLOT_COUNT](_ => None);
      aborted := {};
    }

    ghost function Taken(): seq<bool>
      reads this, slots
    {
      seq(slots.Length, i requires 0 <= i < slots.Length reads this, slots => slots[i].Some?)
    }

    /** Takes the first free slot; `None` when every slot is taken. */
    method Claim() returns (idx: Option<nat>)
      modifies slots
      ensures idx == FirstFree(old(Taken()), 0)
      ensures idx.Some? ==> slots[..] == old(slots[..])[idx.value := Some(SlotData([]))]
      ensures idx.None? ==> slots[..] == old(slots[..])
    {
      for i := 0 to slots.Length
        invariant slots[..] == old(slots[..])
        invariant FirstFree(old(Taken()), 0) == FirstFree(old(Taken()), i)
      {
        assert slots[i] == slots[..][i] == old(slots[..])[i];
        if slots[i].None? {
          slots[i] := Some(SlotData([]));
          return Some(i);
        }
      }
      return None;
    }

    /** Adds a task to the pool of a taken slot. */
    method Push(idx: nat, handle: nat)
      requires idx < slots.Length && slots[idx].Some?
      modifies slots
      ensures slots[..] == old(slots[..])[idx := Some(SlotData(old(slots[idx].value.handles) + [handle]))]
    {
      slots[idx] := Some(SlotData(slots[idx].value.handles + [handle]));
    }

    /** Aborts the tasks of the slot and frees it; an index out of range or a free slot changes nothing. */
    method Release(idx: nat)
      modifies this`aborted, slots
      ensures if idx < slots.Length && old(slots[idx]).Some?
              then slots[..] == old(slots[..])[idx := None]
                   && aborted == old(aborted) + (set h | h in old(slots[idx].value.handles))
              else slots[..] == old(slots[..]) && aborted == old(aborted)
    {
      if idx < slots.Length && slots[idx].Some? {
        var handles := slots[idx].value.handles;
        slots[idx] := None;
        for i := 0 to |handles|
          invariant slots[..] == old(slots[..])[idx := None]
          invariant aborted == old(aborted) + set h | h in handles[..i]
        {
          aborted := aborted + {handles[i]};
        }
        assert handles[..|handles|] == handles;
      }
    }
  }

  /** Idle time as the monitor computes it. */
  function Elapsed(now: nat, last: nat): nat {
    if last <= now then now - last else 0
  }

  predicate IdleFor(timeout: nat, now: nat, last: nat) {
    Max(timeout, MIN_IDLE) <= Elapsed(now, last)
  }

  /** At the clock `sample.0` the last activity, `sample.1`, is both ten seconds and the timeout old. */
  predicate LongIdle(timeout: nat, sample: (nat, nat)) {
    sample.1 + 10 <= sample.0 && sample.1 + timeout <= sample.0
  }

  /** The monitor's loop over its one-second samples of clock and last activity. */
  method IdleMonitor(timeout: nat, samples: seq<(nat, nat)>) returns (tick: Option<nat>)
    ensures match tick
            case Some(n) => n < |samples| && LongIdle(timeout, samples[n]) && forall i | 0 <= i < n :: !LongIdle(timeout, samples[i])
            case None => forall i | 0 <= i < |samples| :: !LongIdle(timeout, samples[i])
  {
    for i := 0 to |samples|
      invariant forall j | 0 <= j < i :: !LongIdle(timeout, samples[j])
    {
      if IdleFor(timeout, samples[i].0, samples[i].1) {
        return Some(i);
      }
    }
    return None;
  }

  // ---- Requests and monitors ----

  /** A request walks through its groups of ports; `Binding` holds slot `idx` with `left` ports still to bind. */
  datatype Phase = Claiming | Binding(idx: nat, left: nat, claimed: nat, last: nat)

  /** `groups` are the port counts of the groups not yet served, the current one first. */
  datatype Request = Request(groups: seq<nat>, phase: Phase)

  /** One look of a monitor: the clock, and the last activity it read. */
  datatype Look = Look(at: nat, last: nat)

  /**
   `sampled` is set once a look found the slot idle enough: the monitor is about to release it.
   `active` is history: the moments at which bytes moved.
   */
  datatype Monitor = Monitor(idx: nat, timeout: nat, claimed: nat, last: nat, active: set<nat>, sampled: Option<Look>)

  datatype State = State(taken: seq<bool>, requests: map<nat, Request>, monitors: map<nat, Monitor>, now: nat)

  datatype Event =
    | Arrive(rid: nat, groups: seq<nat>)
    | Claim(rid: nat)
    | Bind(rid: nat, ok: bool)
    | Serve(rid: nat, mid: nat, timeout: nat)
    | Activity(mid: nat)
    | Sample(mid: nat)
    | Release(mid: nat)
    | Advance(seconds: nat)

  function Init(): State {
    State(seq(SLOT_COUNT, _ => false), map[], map[], 0)
  }

  predicate Enabled(s: State, e: Event) {
    match e
    case Arrive(rid, groups) => rid !in s.requests
    case Claim(rid) => rid in s.requests && s.requests[rid].phase.Claiming? && s.requests[rid].groups != []
    case Bind(rid, _) => rid in s.requests && s.requests[rid].phase.Binding? && 0 < s.requests[rid].phase.left
    case Serve(rid, mid, _) =>
      && rid in s.requests && s.requests[rid].phase.Binding? && s.requests[rid].phase.left == 0
      && s.requests[rid].groups != [] && mid !in s.monitors
    case Activity(mid) => mid in s.monitors
    case Sample(mid) => mid in s.monitors && s.monitors[mid].sampled.None?
    case Release(mid) => mid in s.monitors && s.monitors[mid].sampled.Some?
    case Advance(_) => true
  }

  function Freed(taken: seq<bool>, idx: nat): seq<bool> {
    if idx < |taken| then taken[idx := false] else taken
  }

  function Next(s: State, e: Event): State
    requires Enabled(s, e)
  {
    match e
    case Arrive(rid, groups) => s.(requests := s.requests[rid := Request(groups, Claiming)])
    case Claim(rid) =>
      var r := s.requests[rid];
      (match FirstFree(s.taken, 0)
       case None => s.(requests := s.requests - {rid})
       case Some(idx) =>
         s.(taken := s.taken[idx := true],
            requests := s.requests[rid := r.(phase := Binding(idx, r.groups[0], s.now, s.now))]))
    case Bind(rid, ok) =>
      var r := s.requests[rid];
      if ok then s.(requests := s.requests[rid := r.(phase := r.phase.(left := r.phase.left - 1))])
      else s.(taken := Freed(s.taken, r.phase.idx), requests := s.requests - {rid})
    case Serve(rid, mid, timeout) =>
      var r := s.requests[rid];
      s.(requests := s.requests[rid := Request(r.groups[1..], Claiming)],
         monitors := s.monitors[mid := Monitor(r.phase.idx, timeout, r.phase.claimed, r.phase.last, {}, None)])
    case Activity(mid) =>
      var m := s.monitors[mid];
      s.(monitors := s.monitors[mid := m.(last := s.now, active := m.active + {s.now})])
    case Sample(mid) =>
      var m := s.monitors[mid];
      s.(monitors := s.monitors[mid := m.(sampled := if IdleFor(m.timeout, s.now, m.last) then Some(Look(s.now, m.last)) else None)])
    case Release(mid) =>
      s.(taken := Freed(s.taken, s.monitors[mid].idx), monitors := s.monitors - {mid})
    case Advance(seconds) => s.(now := s.now + seconds)
  }

  /** A look decides by ten seconds and the timeout since the activity it reads; moving a byte is activity. */
  lemma LooksDecide(s: State, mid: nat)
    requires mid in s.monitors
    ensures var m := s.monitors[mid];
      Enabled(s, Sample(mid)) ==>
        (Next(s, Sample(mid)).monitors[mid].sampled == if LongIdle(m.timeout, (s.now, m.last)) then Some(Look(s.now, m.last)) else None)
    ensures var m := Next(s, Activity(mid)).monitors[mid]; m.last == s.now && m.active == s.monitors[mid].active + {s.now}
  {}

  predicate Runs(s: State, evs: seq<Event>)
    decreases |evs|
  {
    evs == [] || (Enabled(s, evs[0]) && Runs(Next(s, evs[0]), evs[1..]))
  }

  function Run(s: State, evs: seq<Event>): State
    requires Runs(s, evs)
    decreases |evs|
  {
    if evs == [] then s else Run(Next(s, evs[0]), evs[1..])
  }

  // ---- Ownership ----

  datatype Holder = Handler(rid: nat) | Watcher(mid: nat)

  predicate Holds(s: State, h: Holder, idx: nat) {
    match h
    case Handler(rid) => rid in s.requests && s.requests[rid].phase.Binding? && s.requests[rid].phase.idx == idx
    case Watcher(mid) => mid in s.monitors && s.monitors[mid].idx == idx
  }

  ghost predicate Held(s: State, idx: nat) {
    exists h :: Holds(s, h, idx)
  }

  ghost predicate HeldIffTaken(s: State) {
    && |s.taken| == SLOT_COUNT
    && (forall i | 0 <= i < SLOT_COUNT :: s.taken[i] <==> Held(s, i))
    && (forall h: Holder, i: nat | Holds(s, h, i) :: i < SLOT_COUNT)
  }

  ghost predicate OneHolder(s: State) {
    forall h: Holder, k: Holder, i: nat | Holds(s, h, i) && Holds(s, k, i) :: h == k
  }

  /** Nothing moved between the activity that was read and the look that read it, and that was long enough. */
  predicate SawIdle(m: Monitor, look: Look) {
    && m.claimed <= look.last && look.last + Max(m.timeout, MIN_IDLE) <= look.at
    && forall a | a in m.active :: a <= look.last || look.at <= a
  }

  predicate MonitorOk(m: Monitor, now: nat) {
    && m.claimed <= m.last <= now && (forall a | a in m.active :: a <= m.last)
    && (m.sampled.Some? ==> m.sampled.value.at <= now && SawIdle(m, m.sampled.value))
  }

  ghost predicate Timed(s: State) {
    && (forall mid | mid in s.monitors :: MonitorOk(s.monitors[mid], s.now))
    && (forall rid | rid in s.requests && s.requests[rid].phase.Binding? ::
          s.requests[rid].phase.claimed <= s.requests[rid].phase.last <= s.now)
  }

  ghost predicate Inv(s: State) {
    HeldIffTaken(s) && OneHolder(s) && Timed(s)
  }

  /** Holders other than `h` and `k` are the same before and after. */
  ghost predicate OthersKeep(s: State, t: State, h: Holder, k: Holder) {
    forall o: Holder, i: nat | o != h && o != k :: Holds(s, o, i) <==> Holds(t, o, i)
  }

  /** A claim adds one holder to a slot nobody held. */
  lemma ClaimKeeps(s: State, t: State, h: Holder, idx: nat)
    requires HeldIffTaken(s) && OneHolder(s) && OthersKeep(s, t, h, h)
    requires idx < SLOT_COUNT && !s.taken[idx] && t.taken == s.taken[idx := true]
    requires forall i :: !Holds(s, h, i) && (Holds(t, h, i) <==> i == idx)
    ensures HeldIffTaken(t) && OneHolder(t)
  {
    hide Holds;
    forall i | 0 <= i < SLOT_COUNT
      ensures t.taken[i] <==> Held(t, i)
    {
      if i == idx {
        assert Holds(t, h, idx);
      } else {
        assert forall o :: Holds(s, o, i) <==> Holds(t, o, i);
        assert Held(s, i) <==> Held(t, i);
      }
    }
    assert forall o :: !Holds(s, o, idx) by { assert !Held(s, idx); }
  }

  /** A release takes away the one holder of its slot. */
  lemma ReleaseKeeps(s: State, t: State, h: Holder, idx: nat)
    requires HeldIffTaken(s) && OneHolder(s) && OthersKeep(s, t, h, h)
    requires Holds(s, h, idx) && t.taken == Freed(s.taken, idx)
    requires forall i :: (Holds(s, h, i) <==> i == idx) && !Holds(t, h, i)
    ensures HeldIffTaken(t) && OneHolder(t)
  {
    hide Holds;
    forall i | 0 <= i < SLOT_COUNT
      ensures t.taken[i] <==> Held(t, i)
    {
      if i == idx {
        assert forall o :: !Holds(t, o, idx);
      } else {
        assert forall o :: Holds(s, o, i) <==> Holds(t, o, i);
        assert Held(s, i) <==> Held(t, i);
      }
    }
  }

  /** A slot passes from one holder to another that held nothing. */
  lemma HandOverKeeps(s: State, t: State, h: Holder, k: Holder, idx: nat)
    requires HeldIffTaken(s) && OneHolder(s) && h != k && OthersKeep(s, t, h, k)
    requires Holds(s, h, idx) && t.taken == s.taken
    requires forall i :: (Holds(s, h, i) <==> i == idx) && !Holds(s, k, i) && !Holds(t, h, i) && (Holds(t, k, i) <==> i == idx)
    ensures HeldIffTaken(t) && OneHolder(t)
  {
    hide Holds;
    forall i | 0 <= i < SLOT_COUNT
      ensures t.taken[i] <==> Held(t, i)
    {
      if i == idx {
        assert Holds(t, k, idx) && Held(s, idx);
      } else {
        assert forall o :: Holds(s, o, i) <==> Holds(t, o, i);
        assert Held(s, i) <==> Held(t, i);
      }
    }
    forall a, b, i | Holds(t, a, i) && Holds(t, b, i)
      ensures a == b
    {
      if i == idx {
        assert forall o | o != k :: !Holds(t, o, idx);
      }
    }
  }

  /** Nobody's slot changes. */
  lemma SameHoldersKeep(s: State, t: State)
    requires HeldIffTaken(s) && OneHolder(s) && t.taken == s.taken
    requires forall o, i :: Holds(s, o, i) <==> Holds(t, o, i)
    ensures HeldIffTaken(t) && OneHolder(t)
  {
    hide Holds;
    forall i | 0 <= i < SLOT_COUNT
      ensures Held(s, i) <==> Held(t, i)
    {}
  }

  lemma OwnershipKept(s: State, e: Event)
    requires HeldIffTaken(s) && OneHolder(s) && Enabled(s, e)
    ensures HeldIffTaken(Next(s, e)) && OneHolder(Next(s, e))
  {
    var t := Next(s, e);
    hide HeldIffTaken, OneHolder;
    match e
    case Claim(rid) =>
      if FirstFree(s.taken, 0).None? {
        SameHoldersKeep(s, t);
      } else {
        TakenLength(s);
        ClaimKeeps(s, t, Handler(rid), FirstFree(s.taken, 0).value);
      }
    case Bind(rid, ok) =>
      if ok {
        SameHoldersKeep(s, t);
      } else {
        ReleaseKeeps(s, t, Handler(rid), s.requests[rid].phase.idx);
      }
    case Serve(rid, mid, _) => HandOverKeeps(s, t, Handler(rid), Watcher(mid), s.requests[rid].phase.idx);
    case Release(mid) => ReleaseKeeps(s, t, Watcher(mid), s.monitors[mid].idx);
    case _ => SameHoldersKeep(s, t);
  }

  lemma TakenLength(s: State)
    requires HeldIffTaken(s)
    ensures |s.taken| == SLOT_COUNT
  {}

  lemma TimedKept(s: State, e: Event)
    requires Timed(s) && Enabled(s, e)
    ensures Timed(Next(s, e))
  {}

  lemma {:induction false} RunKeepsInv(s: State, evs: seq<Event>)
    requires Inv(s) && Runs(s, evs)
    ensures Inv(Run(s, evs))
    decreases |evs|
  {
    hide Enabled, Next, HeldIffTaken, OneHolder, Timed;
    if evs != [] {
      OwnershipKept(s, evs[0]);
      TimedKept(s, evs[0]);
      RunKeepsInv(Next(s, evs[0]), evs[1..]);
    }
  }

  lemma InitHasInv()
    ensures Inv(Init())
  {
    assert forall h, i :: !Holds(Init(), h, i);
  }

  // ---- What every run keeps ----

  /** A slot is taken exactly when one request or one monitor holds it, and no two holders share an address. */
  lemma SlotsAreOwned(evs: seq<Event>, h: Holder, k: Holder, i: nat, j: nat)
    requires Runs(Init(), evs)
    ensures var s := Run(Init(), evs);
      && |s.taken| == 16
      && (i < 16 ==> (s.taken[i] <==> Held(s, i)))
      && (Holds(s, h, i) && Holds(s, k, j) && SlotIp(i) == SlotIp(j) ==> h == k && i == j)
  {
    InitHasInv();
    RunKeepsInv(Init(), evs);
    hide Holds, Run, Runs, SlotIp;
    if SlotIp(i) == SlotIp(j) { SlotIpInjective(i, j); }
  }

  /** Whoever releases a slot is its holder, the only one, and the slot is taken until then. */
  lemma ReleaseFreesOwnClaim(evs: seq<Event>, e: Event)
    requires Runs(Init(), evs) && Enabled(Run(Init(), evs), e)
    requires e.Release? || (e.Bind? && !e.ok)
    ensures var s := Run(Init(), evs);
      var h := if e.Release? then Watcher(e.mid) else Handler(e.rid);
      var idx := if e.Release? then s.monitors[e.mid].idx else s.requests[e.rid].phase.idx;
      && idx < |s.taken| && s.taken[idx] && Holds(s, h, idx) && (forall k | Holds(s, k, idx) :: k == h)
      && Next(s, e).taken == s.taken[idx := false] && !Held(Next(s, e), idx)
  {
    InitHasInv();
    RunKeepsInv(Init(), evs);
    hide Run, Runs;
    var s := Run(Init(), evs);
    var h := if e.Release? then Watcher(e.mid) else Handler(e.rid);
    var idx := if e.Release? then s.monitors[e.mid].idx else s.requests[e.rid].phase.idx;
    assert Holds(s, h, idx) && Held(s, idx);
    OwnershipKept(s, e);
    hide Holds;
  }

  /** A claim is refused only when sixteen different holders have the sixteen slots. */
  lemma RefusedOnlyWhenFull(evs: seq<Event>) returns (owners: seq<Holder>)
    requires Runs(Init(), evs) && FirstFree(Run(Init(), evs).taken, 0).None?
    ensures |owners| == 16
    ensures forall i | 0 <= i < 16 :: Holds(Run(Init(), evs), owners[i], i)
    ensures forall i, j | 0 <= i < j < 16 :: owners[i] != owners[j]
  {
    InitHasInv();
    RunKeepsInv(Init(), evs);
    hide Run, Runs;
    var s := Run(Init(), evs);
    owners := [];
    while |owners| < SLOT_COUNT
      invariant |owners| <= SLOT_COUNT
      invariant forall i | 0 <= i < |owners| :: Holds(s, owners[i], i)
    {
      assert s.taken[|owners|] && Held(s, |owners|);
      var h :| Holds(s, h, |owners|);
      owners := owners + [h];
    }
  }

  /**
   A monitor releases only after a look that found the last activity at least max(10, timeout) seconds
   old, with no byte moved in between; so a bound slot is kept at least that long from its claim.
   */
  lemma ReleasedOnlyWhenIdle(evs: seq<Event>, mid: nat)
    requires Runs(Init(), evs) && Enabled(Run(Init(), evs), Release(mid))
    ensures var s := Run(Init(), evs);
      var m := s.monitors[mid];
      var look := m.sampled.value;
      && look.at <= s.now && look.last + 10 <= look.at && look.last + m.timeout <= look.at
      && (forall a | a in m.active :: !(look.last < a < look.at))
      && m.claimed + 10 <= s.now && m.claimed + m.timeout <= s.now
  {
    InitHasInv();
    RunKeepsInv(Init(), evs);
    hide Run, Runs;
    var s := Run(Init(), evs);
    assert MonitorOk(s.monitors[mid], s.now);
  }

  // ---- A group is served when all its ports are bound ----

  predicate Of(e: Event, rid: nat) {
    (e.Arrive? || e.Claim? || e.Bind? || e.Serve?) && e.rid == rid
  }

  /** How many ports the request binds in `evs`. */
  function Binds(evs: seq<Event>, rid: nat): nat {
    if evs == [] then 0 else (if evs[0] == Bind(rid, true) then 1 else 0) + Binds(evs[1..], rid)
  }

  /** Until the group is served, the request binds its ports and nothing fails. */
  predicate OnlyBinds(evs: seq<Event>, rid: nat) {
    forall i | 0 <= i < |evs| :: Of(evs[i], rid) ==> evs[i] == Bind(rid, true)
  }

  lemma {:induction false} BindsCount(s: State, evs: seq<Event>, rid: nat)
    requires Runs(s, evs) && OnlyBinds(evs, rid) && rid in s.requests && s.requests[rid].phase.Binding?
    ensures var r, end := s.requests[rid], Run(s, evs).requests;
      rid in end && Binds(evs, rid) <= r.phase.left
      && end[rid] == r.(phase := r.phase.(left := r.phase.left - Binds(evs, rid)))
    decreases |evs|
  {
    if evs != [] {
      var e, s' := evs[0], Next(s, evs[0]);
      var r := s.requests[rid];
      assert if e == Bind(rid, true) then s'.requests[rid] == r.(phase := r.phase.(left := r.phase.left - 1))
             else rid in s'.requests && s'.requests[rid] == r;
      hide Next, Enabled;
      BindsCount(s', evs[1..], rid);
    }
  }

  /**
   From its claim on, a group is handed to a monitor exactly when as many ports were bound as it has; the
   monitor gets the slot claimed, the timeout given, and the moment of the claim as its first activity.
   */
  lemma ServedWhenBound(s: State, rid: nat, evs: seq<Event>, mid: nat, timeout: nat)
    requires Enabled(s, Claim(rid)) && FirstFree(s.taken, 0).Some? && Runs(Next(s, Claim(rid)), evs) && OnlyBinds(evs, rid)
    requires mid !in Run(Next(s, Claim(rid)), evs).monitors
    ensures var end := Run(Next(s, Claim(rid)), evs);
      && (Enabled(end, Serve(rid, mid, timeout)) <==> Binds(evs, rid) == s.requests[rid].groups[0])
      && (Enabled(end, Serve(rid, mid, timeout)) ==>
            && Next(end, Serve(rid, mid, timeout)).monitors[mid] ==
               Monitor(FirstFree(s.taken, 0).value, timeout, s.now, s.now, {}, None)
            && Next(end, Serve(rid, mid, timeout)).requests[rid].groups == s.requests[rid].groups[1..])
  {
    BindsCount(Next(s, Claim(rid)), evs, rid);
    hide Run, Runs, Binds;
  }
}
