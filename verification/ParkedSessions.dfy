/**
 Parked guacd sessions of the gateway: connection handlers, the shared `parked_sessions`
 map and one detached timer task per park, interleaving at every lock or await.
 */
module ParkedSessions {
  import opened Wrappers

  /** A guacd connection identifier. */
  type Id = string
  type TaskId = nat

  datatype RecordingMeta = RecordingMeta(connId: Id, recording: string, target: string, protocol: string)

  /**
   What one task (a connection handler, or a timer that fired) is about to do.
   `Relaying`, `Parking`, `Ending` and `Expired` hold the guacd stream of `id`; `Arming` has
   already handed it to the map and only has the timer left to spawn.
   */
  datatype Phase =
    | Relaying(id: Id, meta: Option<RecordingMeta>)
    | Parking(id: Id, meta: Option<RecordingMeta>)
    | Arming(id: Id)
    | Ending(id: Id, meta: Option<RecordingMeta>)
    | Expired(id: Id, meta: Option<RecordingMeta>)
  {
    predicate Holds(i: Id) {
      !Arming? && id == i
    }
  }

  /** A map entry; `since` is history: the moment of the latest park. */
  datatype Entry = Entry(meta: Option<RecordingMeta>, since: nat)

  datatype Timer = Timer(id: Id, due: nat)

  /**
   The whole machine. `started`, `ended` and `jobs` are history: every session ever opened with
   its metadata, how often each session was finished off, and how often each job file was written.
   */
  datatype State = State(
    grace: nat,
    jobsPath: bool,
    now: nat,
    tasks: map<TaskId, Phase>,
    parked: map<Id, Entry>,
    timers: multiset<Timer>,
    started: map<Id, Option<RecordingMeta>>,
    ended: multiset<Id>,
    jobs: multiset<RecordingMeta>)

  datatype Event =
    | Connect(t: TaskId, id: Id, meta: Option<RecordingMeta>)  // new session, or a reconnect that found nothing
    | Reconnect(t: TaskId, id: Id)      // the id was in the map
    | ClientGone(t: TaskId)             // relay_guac returned true
    | GuacdClosed(t: TaskId)            // relay_guac returned false
    | Insert(t: TaskId)                 // park_session puts the stream into the map
    | Arm(t: TaskId)                    // park_session spawns the timer and the handler returns
    | Fire(timer: Timer, t: TaskId)     // a timer wakes up and removes its id from the map
    | Finish(t: TaskId)                 // the job file is written, the stream dropped
    | Advance                           // one second passes

  function Init(grace: nat, jobsPath: bool): State {
    State(grace, jobsPath, 0, map[], map[], multiset{}, map[], multiset{}, multiset{})
  }

  /** Due timers, and the spawn that follows an insert, run before the clock moves. */
  predicate Urgent(s: State) {
    || (exists timer <- s.timers :: timer.due <= s.now)
    || (exists t <- s.tasks :: s.tasks[t].Arming?)
  }

  /** guacd never issues an identifier twice; the metadata carries the identifier it is built from. */
  predicate Enabled(s: State, e: Event) {
    match e
    case Connect(t, id, meta) =>
      t !in s.tasks && id !in s.started && (meta.Some? ==> meta.value.connId == id)
    case Reconnect(t, id) => t !in s.tasks && id in s.parked
    case ClientGone(t) => t in s.tasks && s.tasks[t].Relaying?
    case GuacdClosed(t) => t in s.tasks && s.tasks[t].Relaying?
    case Insert(t) => t in s.tasks && s.tasks[t].Parking?
    case Arm(t) => t in s.tasks && s.tasks[t].Arming?
    case Fire(timer, t) => timer in s.timers && timer.due <= s.now && t !in s.tasks
    case Finish(t) => t in s.tasks && (s.tasks[t].Ending? || s.tasks[t].Expired?)
    case Advance => !Urgent(s)
  }

  function Next(s: State, e: Event): State
    requires Enabled(s, e)
  {
    match e
    case Connect(t, id, meta) =>
      s.(tasks := s.tasks[t := Relaying(id, meta)], started := s.started[id := meta])
    case Reconnect(t, id) =>
      s.(tasks := s.tasks[t := Relaying(id, s.parked[id].meta)], parked := s.parked - {id})
    case ClientGone(t) =>
      s.(tasks := s.tasks[t := Parking(s.tasks[t].id, s.tasks[t].meta)])
    case GuacdClosed(t) =>
      s.(tasks := s.tasks[t := Ending(s.tasks[t].id, s.tasks[t].meta)])
    case Insert(t) =>
      s.(tasks := s.tasks[t := Arming(s.tasks[t].id)],
         parked := s.parked[s.tasks[t].id := Entry(s.tasks[t].meta, s.now)])
    case Arm(t) =>
      s.(tasks := s.tasks - {t}, timers := s.timers + multiset{Timer(s.tasks[t].id, s.now + s.grace)})
    case Fire(timer, t) =>
      if timer.id in s.parked then
        s.(timers := s.timers - multiset{timer},
           tasks := s.tasks[t := Expired(timer.id, s.parked[timer.id].meta)],
           parked := s.parked - {timer.id})
      else
        s.(timers := s.timers - multiset{timer})
    case Finish(t) =>
      s.(tasks := s.tasks - {t},
         ended := s.ended + multiset{s.tasks[t].id},
         jobs := if s.tasks[t].meta.Some? && s.jobsPath then s.jobs + multiset{s.tasks[t].meta.value} else s.jobs)
    case Advance => s.(now := s.now + 1)
  }

  /** `evs` can happen one after the other from `s`. */
  predicate Runs(s: State, evs: seq<Event>)
    decreases |evs|
  {
    evs == [] || (Enabled(s, evs[0]) && Runs(Next(s, evs[0]), evs[1..]))
  }

  function Run(s: State, evs: seq<Event>): State
    requires Runs(s, evs)
    decreases |evs|
  {
    if evs == [] then s else Run(Next(s, evs[0]), evs[1..])
  }

  // ---- Ownership ----

  ghost predicate HeldByTask(s: State, id: Id) {
    exists t <- s.tasks :: s.tasks[t].Holds(id)
  }

  /** No two tasks hold the same stream. */
  ghost predicate TasksApart(s: State) {
    forall t, u | t in s.tasks && u in s.tasks && t != u && !s.tasks[t].Arming? && !s.tasks[u].Arming? ::
      s.tasks[t].id != s.tasks[u].id
  }

  /** A task knows an opened session; a stream it holds is live, not parked, and goes with its own metadata. */
  ghost predicate TaskOpen(s: State, p: Phase) {
    && p.id in s.started
    && (!p.Arming? ==> p.id !in s.parked && s.ended[p.id] == 0 && p.meta == s.started[p.id])
  }

  ghost predicate TasksOpen(s: State) {
    forall t <- s.tasks :: TaskOpen(s, s.tasks[t])
  }

  ghost predicate ParkedOpen(s: State) {
    forall id <- s.parked :: id in s.started && s.ended[id] == 0 && s.parked[id].meta == s.started[id]
  }

  ghost predicate EndedOnce(s: State) {
    forall id | s.ended[id] > 0 :: id in s.started && s.ended[id] == 1
  }

  ghost predicate NoneLost(s: State) {
    forall id <- s.started :: HeldByTask(s, id) || id in s.parked || s.ended[id] == 1
  }

  ghost predicate Linear(s: State) {
    TasksApart(s) && TasksOpen(s) && ParkedOpen(s) && EndedOnce(s) && NoneLost(s)
  }

  /** The job file of `m` was written as often as its recorded session was finished off. */
  ghost predicate JobCounted(s: State, m: RecordingMeta) {
    s.jobs[m] == if s.jobsPath && m.connId in s.started && s.started[m.connId] == Some(m)
                 then s.ended[m.connId] else 0
  }

  ghost predicate MetaNamed(s: State) {
    forall id <- s.started | s.started[id].Some? :: s.started[id].value.connId == id
  }

  ghost predicate JobsCounted(s: State) {
    && MetaNamed(s)
    && (forall m: RecordingMeta :: JobCounted(s, m))
  }

  /** Something will remove `id` no later than a grace period after its latest park. */
  ghost predicate HasTimer(s: State, id: Id, due: nat) {
    exists timer <- s.timers :: timer.id == id && timer.due <= due
  }

  ghost predicate HasArming(s: State, id: Id) {
    exists t <- s.tasks :: s.tasks[t] == Arming(id)
  }

  ghost predicate Covered(s: State, id: Id)
    requires id in s.parked
  {
    HasTimer(s, id, s.parked[id].since + s.grace) || HasArming(s, id)
  }

  ghost predicate TimersAhead(s: State) {
    forall timer <- s.timers :: s.now <= timer.due
  }

  ghost predicate AllCovered(s: State) {
    forall id <- s.parked :: Covered(s, id)
  }

  ghost predicate ParkedBefore(s: State) {
    forall id <- s.parked :: s.parked[id].since <= s.now
  }

  /** A timer is spawned in the second its session was put into the map. */
  ghost predicate ArmedAtOnce(s: State) {
    forall t <- s.tasks | s.tasks[t].Arming? && s.tasks[t].id in s.parked ::
      s.parked[s.tasks[t].id].since == s.now
  }

  ghost predicate Timely(s: State) {
    TimersAhead(s) && AllCovered(s) && ParkedBefore(s) && ArmedAtOnce(s)
  }

  ghost predicate Inv(s: State) {
    Linear(s) && JobsCounted(s) && Timely(s)
  }

  lemma TasksApartKept(s: State, e: Event)
    requires TasksApart(s) && TasksOpen(s) && ParkedOpen(s) && Enabled(s, e)
    ensures TasksApart(Next(s, e))
  {}

  lemma IdleTaskOpen(s: State, e: Event, t: TaskId)
    requires TasksApart(s) && TasksOpen(s) && Enabled(s, e)
    requires t in s.tasks && t in Next(s, e).tasks && Next(s, e).tasks[t] == s.tasks[t]
    ensures TaskOpen(Next(s, e), s.tasks[t])
  {
    assert TaskOpen(s, s.tasks[t]);
  }

  lemma MovedTaskOpen(s: State, e: Event, t: TaskId)
    requires TasksOpen(s) && ParkedOpen(s) && EndedOnce(s) && Enabled(s, e)
    requires t in Next(s, e).tasks && (t in s.tasks ==> Next(s, e).tasks[t] != s.tasks[t])
    ensures TaskOpen(Next(s, e), Next(s, e).tasks[t])
  {
    assert t in s.tasks ==> TaskOpen(s, s.tasks[t]);
  }

  lemma TasksOpenKept(s: State, e: Event)
    requires TasksApart(s) && TasksOpen(s) && ParkedOpen(s) && EndedOnce(s) && Enabled(s, e)
    ensures TasksOpen(Next(s, e))
  {
    hide Next;
    hide TaskOpen;
    var s' := Next(s, e);
    forall t <- s'.tasks ensures TaskOpen(s', s'.tasks[t]) {
      if t in s.tasks && s.tasks[t] == s'.tasks[t] {
        IdleTaskOpen(s, e, t);
      } else {
        MovedTaskOpen(s, e, t);
      }
    }
  }

  lemma ParkedOpenKept(s: State, e: Event)
    requires TasksApart(s) && TasksOpen(s) && ParkedOpen(s) && Enabled(s, e)
    ensures ParkedOpen(Next(s, e))
  {}

  lemma EndedOnceKept(s: State, e: Event)
    requires TasksOpen(s) && EndedOnce(s) && Enabled(s, e)
    ensures EndedOnce(Next(s, e))
  {}

  lemma HeldKept(s: State, e: Event, id: Id)
    requires TasksApart(s) && Enabled(s, e) && HeldByTask(s, id)
    ensures HeldByTask(Next(s, e), id) || id in Next(s, e).parked || 1 <= Next(s, e).ended[id]
  {
    var t :| t in s.tasks && s.tasks[t].Holds(id);
    var s' := Next(s, e);
    if t in s'.tasks {
      assert s'.tasks[t].Holds(id) || e == Insert(t);
    } else {
      assert e == Finish(t);
    }
  }

  lemma OwnerAppears(s: State, e: Event, id: Id)
    requires Enabled(s, e) && id in Next(s, e).started
    requires id !in s.started || (id in s.parked && id !in Next(s, e).parked)
    ensures HeldByTask(Next(s, e), id)
  {
    assert Next(s, e).tasks[e.t].Holds(id);
  }

  lemma NoneLostKept(s: State, e: Event)
    requires Enabled(s, e) && TasksApart(s) && NoneLost(s) && EndedOnce(Next(s, e))
    requires Next(s, e).ended >= s.ended && forall id <- s.started :: id in Next(s, e).started
    ensures NoneLost(Next(s, e))
  {
    hide Next;
    var s' := Next(s, e);
    forall id <- s'.started ensures HeldByTask(s', id) || id in s'.parked || s'.ended[id] == 1 {
      if id in s.started && HeldByTask(s, id) {
        HeldKept(s, e, id);
      } else if id !in s.started || (id in s.parked && id !in s'.parked) {
        OwnerAppears(s, e, id);
      }
    }
  }

  lemma HistoryGrows(s: State, e: Event)
    requires Enabled(s, e)
    ensures Next(s, e).ended >= s.ended && forall id <- s.started :: id in Next(s, e).started
  {}

  lemma LinearKept(s: State, e: Event)
    requires Linear(s) && Enabled(s, e)
    ensures Linear(Next(s, e))
  {
    TasksApartKept(s, e);
    TasksOpenKept(s, e);
    ParkedOpenKept(s, e);
    EndedOnceKept(s, e);
    HistoryGrows(s, e);
    NoneLostKept(s, e);
  }

  lemma FinishJobKept(s: State, t: TaskId, m: RecordingMeta)
    requires TasksOpen(s) && MetaNamed(s) && Enabled(s, Finish(t)) && JobCounted(s, m)
    ensures JobCounted(Next(s, Finish(t)), m)
  {
    assert TaskOpen(s, s.tasks[t]);
    if s.tasks[t].meta == Some(m) {
      assert s.tasks[t].id == m.connId;
    }
  }

  lemma ConnectJobKept(s: State, e: Event, m: RecordingMeta)
    requires EndedOnce(s) && e.Connect? && Enabled(s, e) && JobCounted(s, m)
    ensures JobCounted(Next(s, e), m)
  {
    if m.connId == e.id {
      assert s.ended[e.id] == 0;
    }
  }

  lemma JobsKept(s: State, e: Event)
    requires TasksOpen(s) && EndedOnce(s) && JobsCounted(s) && Enabled(s, e)
    ensures JobsCounted(Next(s, e))
  {
    forall m: RecordingMeta ensures JobCounted(Next(s, e), m) {
      assert JobCounted(s, m);
      if e.Finish? {
        FinishJobKept(s, e.t, m);
      } else if e.Connect? {
        ConnectJobKept(s, e, m);
      }
    }
  }

  lemma TimersAheadKept(s: State, e: Event)
    requires TimersAhead(s) && Enabled(s, e)
    ensures TimersAhead(Next(s, e))
  {}

  lemma ParkedBeforeKept(s: State, e: Event)
    requires ParkedBefore(s) && Enabled(s, e)
    ensures ParkedBefore(Next(s, e))
  {}

  lemma ArmedAtOnceKept(s: State, e: Event)
    requires ArmedAtOnce(s) && Enabled(s, e)
    ensures ArmedAtOnce(Next(s, e))
  {}

  lemma TimerKept(s: State, e: Event, id: Id, due: nat)
    requires Enabled(s, e) && id in s.parked && HasTimer(s, id, due)
    ensures HasTimer(Next(s, e), id, due) || id !in Next(s, e).parked
  {
    var timer :| timer in s.timers && timer.id == id && timer.due <= due;
    assert timer in Next(s, e).timers || e.Fire?;
  }

  lemma ArmingKept(s: State, e: Event, id: Id)
    requires Enabled(s, e) && HasArming(s, id)
    ensures HasArming(Next(s, e), id) || HasTimer(Next(s, e), id, s.now + s.grace)
  {
    var s' := Next(s, e);
    var t :| t in s.tasks && s.tasks[t] == Arming(id);
    if e == Arm(t) {
      assert Timer(id, s.now + s.grace) in s'.timers;
    } else {
      assert t in s'.tasks && s'.tasks[t] == Arming(id);
    }
  }

  lemma AllCoveredKept(s: State, e: Event)
    requires Timely(s) && Enabled(s, e)
    ensures AllCovered(Next(s, e))
  {
    var s' := Next(s, e);
    forall id <- s'.parked ensures Covered(s', id) {
      if e.Insert? && s.tasks[e.t].id == id {
        assert s'.tasks[e.t] == Arming(id);
      } else if HasTimer(s, id, s.parked[id].since + s.grace) {
        TimerKept(s, e, id, s.parked[id].since + s.grace);
      } else {
        ArmingKept(s, e, id);
      }
    }
  }

  lemma InvKept(s: State, e: Event)
    requires Inv(s) && Enabled(s, e)
    ensures Inv(Next(s, e))
  {
    hide Next;
    LinearKept(s, e);
    JobsKept(s, e);
    TimersAheadKept(s, e);
    ParkedBeforeKept(s, e);
    ArmedAtOnceKept(s, e);
    AllCoveredKept(s, e);
  }

  lemma {:induction false} RunKeepsInv(s: State, evs: seq<Event>)
    requires Inv(s) && Runs(s, evs)
    ensures Inv(Run(s, evs))
    decreases |evs|
  {
    if evs != [] {
      InvKept(s, evs[0]);
      RunKeepsInv(Next(s, evs[0]), evs[1..]);
    }
  }

  ghost predicate Live(s: State, id: Id) {
    id in s.started && s.ended[id] == 0
  }

  /** Either the map owns the stream and no task does, or exactly one task owns it and the map does not. */
  ghost predicate OneOwner(s: State, id: Id) {
    if id in s.parked then !HeldByTask(s, id)
    else exists t <- s.tasks :: s.tasks[t].Holds(id) && forall u <- s.tasks :: s.tasks[u].Holds(id) ==> u == t
  }

  /** In every run each live session has one owner, and a park never overwrites a parked stream. */
  lemma OwnershipIsLinear(grace: nat, jobsPath: bool, evs: seq<Event>)
    requires Runs(Init(grace, jobsPath), evs)
    ensures var s := Run(Init(grace, jobsPath), evs);
      && (forall id :: Live(s, id) ==> OneOwner(s, id))
      && (forall id :: id in s.started && !Live(s, id) ==> id !in s.parked && !HeldByTask(s, id))
      && (forall t <- s.tasks | s.tasks[t].Parking? :: s.tasks[t].id !in s.parked)
  {
    RunKeepsInv(Init(grace, jobsPath), evs);
    var s := Run(Init(grace, jobsPath), evs);
    forall id | Live(s, id) ensures OneOwner(s, id) {
      if id !in s.parked {
        assert HeldByTask(s, id);
      }
    }
  }

  /** A recorded session's job file is written exactly once, when the session is over, and no other file ever is. */
  lemma JobWrittenOnceAtEnd(grace: nat, jobsPath: bool, evs: seq<Event>, m: RecordingMeta)
    requires Runs(Init(grace, jobsPath), evs)
    ensures var s := Run(Init(grace, jobsPath), evs);
      var recorded := jobsPath && m.connId in s.started && s.started[m.connId] == Some(m);
      s.jobs[m] == if recorded && !Live(s, m.connId) then 1 else 0
  {
    RunKeepsInv(Init(grace, jobsPath), evs);
    var s := Run(Init(grace, jobsPath), evs);
    assert s.jobsPath == jobsPath by { RunKeepsConfig(Init(grace, jobsPath), evs); }
    assert JobCounted(s, m);
    assert s.ended[m.connId] <= 1;
  }

  lemma {:induction false} RunKeepsConfig(s: State, evs: seq<Event>)
    requires Runs(s, evs)
    ensures Run(s, evs).jobsPath == s.jobsPath && Run(s, evs).grace == s.grace
    decreases |evs|
  {
    if evs != [] { RunKeepsConfig(Next(s, evs[0]), evs[1..]); }
  }

  // ---- How long a parked session lives ----

  /** No stream stays parked beyond the grace period that follows its latest park. */
  lemma ParkedAtMostGrace(grace: nat, jobsPath: bool, evs: seq<Event>, id: Id)
    requires Runs(Init(grace, jobsPath), evs) && id in Run(Init(grace, jobsPath), evs).parked
    ensures var s := Run(Init(grace, jobsPath), evs); s.parked[id].since <= s.now <= s.parked[id].since + grace
  {
    RunKeepsInv(Init(grace, jobsPath), evs);
    RunKeepsConfig(Init(grace, jobsPath), evs);
    var s := Run(Init(grace, jobsPath), evs);
    assert Covered(s, id);
  }

  /** `id` is parked, its timers are all spawned, and the earliest of them is due at `first`. */
  ghost predicate Waiting(s: State, id: Id, first: nat) {
    && id in s.parked
    && !HasArming(s, id)
    && Timer(id, first) in s.timers
    && (forall timer <- s.timers | timer.id == id :: first <= timer.due)
  }

  /** `id` is being finished off, or is, and can never be parked again. */
  ghost predicate Gone(s: State, id: Id) {
    && id in s.started && id !in s.parked
    && (forall t <- s.tasks | s.tasks[t].id == id :: !s.tasks[t].Relaying? && !s.tasks[t].Parking?)
  }

  predicate NoReconnect(evs: seq<Event>, id: Id) {
    forall e <- evs :: !(e.Reconnect? && e.id == id)
  }

  lemma GoneKept(s: State, e: Event, id: Id)
    requires Gone(s, id) && Enabled(s, e)
    ensures Gone(Next(s, e), id)
  {}

  /** While `id` waits in the map no task concerns it. */
  lemma WaitingAlone(s: State, id: Id)
    requires TasksOpen(s) && id in s.parked && !HasArming(s, id)
    ensures forall t <- s.tasks :: s.tasks[t].id != id
  {
    forall t <- s.tasks ensures s.tasks[t].id != id {
      assert TaskOpen(s, s.tasks[t]) && s.tasks[t] != Arming(id);
    }
  }

  lemma FireEndsWait(s: State, e: Event, id: Id)
    requires TasksOpen(s) && ParkedOpen(s) && id in s.parked && !HasArming(s, id)
    requires e.Fire? && e.timer.id == id && Enabled(s, e)
    ensures Gone(Next(s, e), id)
  {
    WaitingAlone(s, id);
  }

  lemma OthersKeepTimers(s: State, e: Event, id: Id, first: nat)
    requires Waiting(s, id, first) && Enabled(s, e)
    requires forall t <- s.tasks :: s.tasks[t].id != id
    requires !(e.Fire? && e.timer.id == id)
    ensures Timer(id, first) in Next(s, e).timers
    ensures forall timer <- Next(s, e).timers | timer.id == id :: first <= timer.due
  {}

  lemma OthersKeepParked(s: State, e: Event, id: Id)
    requires ParkedOpen(s) && id in s.parked && Enabled(s, e)
    requires !(e.Fire? && e.timer.id == id) && !(e.Reconnect? && e.id == id)
    ensures id in Next(s, e).parked
  {}

  lemma NobodyArms(s: State, e: Event, id: Id)
    requires Enabled(s, e) && forall t <- s.tasks :: s.tasks[t].id != id
    ensures !HasArming(Next(s, e), id)
  {}

  lemma OthersKeepWait(s: State, e: Event, id: Id, first: nat)
    requires TasksOpen(s) && ParkedOpen(s) && Waiting(s, id, first) && Enabled(s, e)
    requires !(e.Fire? && e.timer.id == id) && !(e.Reconnect? && e.id == id)
    ensures Waiting(Next(s, e), id, first)
  {
    hide Next;
    WaitingAlone(s, id);
    OthersKeepTimers(s, e, id, first);
    OthersKeepParked(s, e, id);
    NobodyArms(s, e, id);
  }

  lemma WaitingStep(s: State, e: Event, id: Id, first: nat)
    requires Inv(s) && Waiting(s, id, first) && Enabled(s, e) && !(e.Reconnect? && e.id == id)
    ensures Waiting(Next(s, e), id, first) || (Gone(Next(s, e), id) && first <= s.now)
  {
    if e.Fire? && e.timer.id == id {
      FireEndsWait(s, e, id);
    } else {
      OthersKeepWait(s, e, id, first);
    }
  }

  lemma {:induction false} GoneForGood(s: State, evs: seq<Event>, id: Id)
    requires Gone(s, id) && Runs(s, evs)
    ensures Gone(Run(s, evs), id) && s.now <= Run(s, evs).now
    decreases |evs|
  {
    if evs != [] {
      GoneKept(s, evs[0], id);
      GoneForGood(Next(s, evs[0]), evs[1..], id);
    }
  }

  /** Without a reconnect, a parked session is expired exactly at the earliest pending timer for its id. */
  lemma {:induction false} ExpiresAtEarliestTimer(s: State, evs: seq<Event>, id: Id, first: nat)
    requires Inv(s) && Waiting(s, id, first) && Runs(s, evs) && NoReconnect(evs, id)
    ensures Run(s, evs).now < first ==> id in Run(s, evs).parked
    ensures first < Run(s, evs).now ==> id !in Run(s, evs).parked
    decreases |evs|
  {
    if evs != [] {
      var s' := Next(s, evs[0]);
      WaitingStep(s, evs[0], id, first);
      InvKept(s, evs[0]);
      if Waiting(s', id, first) {
        assert NoReconnect(evs[1..], id);
        ExpiresAtEarliestTimer(s', evs[1..], id, first);
      } else {
        GoneForGood(s', evs[1..], id);
      }
    }
  }

  function ArmingTasks(s: State): set<TaskId> {
    set t <- s.tasks | s.tasks[t].Arming?
  }

  lemma {:induction false} FreshTask(tasks: set<TaskId>) returns (t: TaskId)
    ensures forall u <- tasks :: u < t
  {
    if tasks == {} {
      t := 0;
    } else {
      var u :| u in tasks;
      var t' := FreshTask(tasks - {u});
      t := if t' <= u then u + 1 else t';
      assert tasks == tasks - {u} + {u};
    }
  }

  function Backlog(s: State): nat {
    2 * |ArmingTasks(s)| + |s.timers|
  }

  lemma ArmShrinks(s: State, t: TaskId)
    requires Enabled(s, Arm(t))
    ensures Backlog(Next(s, Arm(t))) < Backlog(s)
  {
    assert ArmingTasks(Next(s, Arm(t))) == ArmingTasks(s) - {t};
  }

  lemma FireShrinks(s: State, timer: Timer, t: TaskId)
    requires Enabled(s, Fire(timer, t))
    ensures Backlog(Next(s, Fire(timer, t))) < Backlog(s)
  {
    assert ArmingTasks(Next(s, Fire(timer, t))) == ArmingTasks(s);
  }

  /** Work that is due can be done, and doing it leaves less of it. */
  lemma WorkOff(s: State) returns (e: Event)
    requires Urgent(s)
    ensures (e.Arm? || e.Fire?) && Enabled(s, e)
    ensures Backlog(Next(s, e)) < Backlog(s)
  {
    if t :| t in s.tasks && s.tasks[t].Arming? {
      e := Arm(t);
      ArmShrinks(s, t);
    } else {
      var timer :| timer in s.timers && timer.due <= s.now;
      var t := FreshTask(s.tasks.Keys);
      e := Fire(timer, t);
      FireShrinks(s, timer, t);
    }
  }

  /** The clock can always move on: no state is stuck on work that is due. */
  lemma {:induction false} TimeCanPass(s: State, target: nat) returns (evs: seq<Event>)
    requires s.now <= target
    ensures Runs(s, evs) && Run(s, evs).now == target
    ensures forall e <- evs :: e.Arm? || e.Fire? || e.Advance?
    decreases target - s.now, Backlog(s)
  {
    if s.now == target {
      evs := [];
    } else {
      var e := Advance;
      if Urgent(s) {
        e := WorkOff(s);
      }
      var rest := TimeCanPass(Next(s, e), target);
      evs := [e] + rest;
      assert evs[0] == e && evs[1..] == rest;
    }
  }

  lemma {:induction false} RunAppend(s: State, evs: seq<Event>, more: seq<Event>)
    requires Runs(s, evs) && Runs(Run(s, evs), more)
    ensures Runs(s, evs + more) && Run(s, evs + more) == Run(Run(s, evs), more)
    decreases |evs|
  {
    hide Next;
    hide Enabled;
    if evs == [] {
      assert evs + more == more;
    } else {
      RunAppend(Next(s, evs[0]), evs[1..], more);
      assert (evs + more)[0] == evs[0] && (evs + more)[1..] == evs[1..] + more;
    }
  }

  /** The park survives every reconnect-free run that stays inside the grace period. */
  ghost predicate LivesFullGrace(s: State, id: Id)
    requires id in s.parked
  {
    forall evs | Runs(s, evs) && NoReconnect(evs, id) && Run(s, evs).now < s.parked[id].since + s.grace ::
      id in Run(s, evs).parked
  }

  lemma EarliestTimer(s: State, id: Id) returns (first: nat)
    requires exists timer <- s.timers :: timer.id == id
    ensures Timer(id, first) in s.timers && forall timer <- s.timers | timer.id == id :: first <= timer.due
  {
    var timer :| timer in s.timers && timer.id == id;
    first := timer.due;
    while exists u <- s.timers :: u.id == id && u.due < first
      invariant Timer(id, first) in s.timers
      decreases first
    {
      var u :| u in s.timers && u.id == id && u.due < first;
      first := u.due;
    }
  }

  /** When the earliest timer is due, a run can expire the session at that very second. */
  lemma ExpiredAtFirst(s: State, id: Id, first: nat) returns (evs: seq<Event>)
    requires Inv(s) && Waiting(s, id, first)
    ensures Runs(s, evs) && NoReconnect(evs, id)
    ensures Run(s, evs).now == first && id !in Run(s, evs).parked
  {
    evs := TimeCanPass(s, first);
    var s1 := Run(s, evs);
    if id in s1.parked {
      StillWaiting(s, evs, id, first);
      var t := FreshTask(s1.tasks.Keys);
      var fire := [Fire(Timer(id, first), t)];
      assert Run(s1, fire) == Next(s1, fire[0]);
      RunAppend(s, evs, fire);
      evs := evs + fire;
    }
  }

  lemma {:induction false} StillWaiting(s: State, evs: seq<Event>, id: Id, first: nat)
    requires Inv(s) && Waiting(s, id, first) && Runs(s, evs) && NoReconnect(evs, id)
    requires id in Run(s, evs).parked
    ensures Waiting(Run(s, evs), id, first)
    decreases |evs|
  {
    if evs != [] {
      WaitingStep(s, evs[0], id, first);
      InvKept(s, evs[0]);
      if Waiting(Next(s, evs[0]), id, first) {
        StillWaiting(Next(s, evs[0]), evs[1..], id, first);
      } else {
        GoneForGood(Next(s, evs[0]), evs[1..], id);
      }
    }
  }

  /**
   A park lasts its whole grace period if and only if no timer of an earlier park of the same
   session is still pending: `park_session` never cancels one.
   */
  lemma FullGraceIff(s: State, id: Id)
    requires Inv(s) && id in s.parked && !HasArming(s, id)
    ensures LivesFullGrace(s, id) <==>
            forall timer <- s.timers | timer.id == id :: s.parked[id].since + s.grace <= timer.due
  {
    assert Covered(s, id);
    var full := s.parked[id].since + s.grace;
    var first := EarliestTimer(s, id);
    if full <= first {
      forall evs | Runs(s, evs) && NoReconnect(evs, id) && Run(s, evs).now < full ensures id in Run(s, evs).parked {
        ExpiresAtEarliestTimer(s, evs, id, first);
      }
    } else {
      var evs := ExpiredAtFirst(s, id, first);
    }
  }

  lemma Extend(s: State, evs: seq<Event>, e: Event)
    requires Runs(s, evs) && Enabled(Run(s, evs), e)
    ensures Runs(s, evs + [e]) && Run(s, evs + [e]) == Next(Run(s, evs), e)
  {
    assert Run(Run(s, evs), [e]) == Next(Run(s, evs), e);
    RunAppend(s, evs, [e]);
  }

  ghost predicate Reach(s0: State, s: State) {
    exists evs :: Runs(s0, evs) && Run(s0, evs) == s
  }

  lemma Go(s0: State, s: State, e: Event)
    requires Reach(s0, s) && Enabled(s, e)
    ensures Reach(s0, Next(s, e))
  {
    var evs :| Runs(s0, evs) && Run(s0, evs) == s;
    Extend(s0, evs, e);
  }

  /** The client of task `t` goes away and the session is parked, all within one second. */
  function ParkedBy(s: State, t: TaskId): State
    requires t in s.tasks && s.tasks[t].Relaying?
  {
    s.(tasks := s.tasks - {t},
       parked := s.parked[s.tasks[t].id := Entry(s.tasks[t].meta, s.now)],
       timers := s.timers + multiset{Timer(s.tasks[t].id, s.now + s.grace)})
  }

  lemma ParkNow(s0: State, s: State, t: TaskId)
    requires Reach(s0, s) && t in s.tasks && s.tasks[t].Relaying?
    ensures Reach(s0, ParkedBy(s, t))
  {
    var s1 := Next(s, ClientGone(t));
    Go(s0, s, ClientGone(t));
    var s2 := Next(s1, Insert(t));
    Go(s0, s1, Insert(t));
    Go(s0, s2, Arm(t));
    assert s2.tasks - {t} == s.tasks - {t};
    assert Next(s2, Arm(t)) == ParkedBy(s, t);
  }

  /** Grace 2; `id` was parked at second 0 and one second has passed. */
  function ParkedOnce(id: Id): State {
    State(2, false, 1, map[], map[id := Entry(None, 0)], multiset{Timer(id, 2)}, map[id := None], multiset{}, multiset{})
  }

  lemma ParkedOnceReached(id: Id)
    ensures Reach(Init(2, false), ParkedOnce(id))
  {
    var s0 := Init(2, false);
    assert Run(s0, []) == s0;
    var s1 := Next(s0, Connect(0, id, None));
    Go(s0, s0, Connect(0, id, None));
    ParkNow(s0, s1, 0);
    assert ParkedBy(s1, 0) == ParkedOnce(id).(now := 0);
    Go(s0, ParkedOnce(id).(now := 0), Advance);
  }

  lemma ParkedAgainReached(id: Id) returns (s: State)
    ensures Reach(Init(2, false), s) && s.tasks == map[] && Timer(id, 2) in s.timers
    ensures s.grace == 2 && s.now == 1 && s.parked == map[id := Entry(None, 1)]
  {
    var s0, s3 := Init(2, false), ParkedOnce(id);
    ParkedOnceReached(id);
    Go(s0, s3, Reconnect(0, id));
    var s4 := Next(s3, Reconnect(0, id));
    assert s4.tasks == map[0 := Relaying(id, None)] && s4.parked == map[];
    ParkNow(s0, s4, 0);
    s := ParkedBy(s4, 0);
  }

  /**
   A reachable state in which a stale timer will cut a park short: grace 2, parked at second 0,
   resumed and parked again at second 1; the first timer is due at second 2 instead of 3.
   */
  lemma StaleTimerExample(id: Id)
    ensures exists s :: (
              && Reach(Init(2, false), s) && id in s.parked && s.parked[id].since == 1 && s.now == 1
              && !HasArming(s, id) && !LivesFullGrace(s, id))
  {
    var s := ParkedAgainReached(id);
    var evs :| Runs(Init(2, false), evs) && Run(Init(2, false), evs) == s;
    RunKeepsInv(Init(2, false), evs);
    FullGraceIff(s, id);
  }

  // ---- Which loss parks a session and which one ends it ----

  /** The step is one of task `t`, which is already there. */
  predicate Own(e: Event, t: TaskId) {
    (e.ClientGone? || e.GuacdClosed? || e.Insert? || e.Arm? || e.Finish?) && e.t == t
  }

  /** Nobody else moves a task on. */
  lemma OthersLeaveTask(s: State, e: Event, t: TaskId)
    requires t in s.tasks && Enabled(s, e) && !Own(e, t)
    ensures t in Next(s, e).tasks && Next(s, e).tasks[t] == s.tasks[t]
  {}

  /** The stream's handler has it, at whatever point. */
  ghost predicate Relays(s: State, t: TaskId, id: Id) {
    t in s.tasks && s.tasks[t].Relaying? && s.tasks[t].id == id
  }

  /** A session starts being relayed, for its whole life under the metadata it came with. */
  lemma ConnectRelays(s: State, t: TaskId, id: Id, meta: Option<RecordingMeta>)
    requires Inv(s) && Enabled(s, Connect(t, id, meta))
    ensures var s1 := Next(s, Connect(t, id, meta));
      Relays(s1, t, id) && s1.tasks[t].meta == s1.started[id] == meta && Live(s1, id) && id !in s1.parked
  {
    assert s.ended[id] == 0;
  }

  /**
   A client that goes away leaves its session behind: the handler has no other way than to put the
   stream into the map under its own metadata and to leave, nothing is ended and no job file written,
   and a reconnect finds the session.
   */
  lemma ClientLossParks(s: State, t: TaskId, id: Id, u: TaskId)
    requires Inv(s) && Relays(s, t, id) && u !in s.tasks
    ensures Enabled(s, ClientGone(t))
    ensures var s1 := Next(s, ClientGone(t));
      && Enabled(s1, Insert(t)) && (forall e | Enabled(s1, e) && Own(e, t) :: e == Insert(t))
      && var s2 := Next(s1, Insert(t));
      && Enabled(s2, Arm(t)) && (forall e | Enabled(s2, e) && Own(e, t) :: e == Arm(t))
      && var s3 := Next(s2, Arm(t));
      && t !in s3.tasks && id in s3.parked && s3.parked[id].meta == s.started[id]
      && s3.ended == s.ended && s3.jobs == s.jobs && Live(s3, id)
      && Enabled(s3, Reconnect(u, id)) && Relays(Next(s3, Reconnect(u, id)), u, id)
      && Next(s3, Reconnect(u, id)).tasks[u].meta == s.started[id]
  {
    assert TaskOpen(s, s.tasks[t]);
  }

  /** Once the handler is to park the stream it does, whatever the others do meanwhile. */
  lemma {:induction false} ParkingWaits(s: State, evs: seq<Event>, t: TaskId)
    requires t in s.tasks && s.tasks[t].Parking? && Runs(s, evs) && forall e <- evs :: !Own(e, t)
    ensures t in Run(s, evs).tasks && Run(s, evs).tasks[t] == s.tasks[t] && Enabled(Run(s, evs), Insert(t))
    decreases |evs|
  {
    hide Next;
    if evs != [] {
      OthersLeaveTask(s, evs[0], t);
      ParkingWaits(Next(s, evs[0]), evs[1..], t);
    }
  }

  /**
   A session whose guacd has closed is over: the handler has no other way than to finish it off, which
   ends it once and writes its job file if it was recorded.
   */
  lemma GuacdLossEnds(s: State, t: TaskId, id: Id)
    requires Inv(s) && Relays(s, t, id)
    ensures Enabled(s, GuacdClosed(t))
    ensures var s1 := Next(s, GuacdClosed(t));
      && Enabled(s1, Finish(t)) && (forall e | Enabled(s1, e) && Own(e, t) :: e == Finish(t))
      && var s2 := Next(s1, Finish(t));
      && t !in s2.tasks && s2.ended == s.ended + multiset{id} && !Live(s2, id)
      && s2.jobs == if s.jobsPath && s.started[id].Some? then s.jobs + multiset{s.started[id].value} else s.jobs
  {
    assert TaskOpen(s, s.tasks[t]);
  }

  /** And no run ever finds it in the map again. */
  lemma GuacdLossIsFinal(s: State, t: TaskId, id: Id, evs: seq<Event>)
    requires Inv(s) && Relays(s, t, id) && Runs(Next(s, GuacdClosed(t)), evs)
    ensures id !in Run(Next(s, GuacdClosed(t)), evs).parked
  {
    var s1 := Next(s, GuacdClosed(t));
    assert TaskOpen(s, s.tasks[t]);
    assert Gone(s1, id) by {
      forall u | u in s1.tasks && s1.tasks[u].id == id
        ensures !s1.tasks[u].Relaying? && !s1.tasks[u].Parking?
      {
        assert u != t ==> s1.tasks[u] == s.tasks[u] && s.tasks[u].Arming?;
      }
    }
    GoneForGood(s1, evs, id);
  }

  /** The step is the end of `id`: its guacd closes, or a timer finds it parked. */
  predicate Kills(s: State, e: Event, id: Id) {
    || (e.GuacdClosed? && e.t in s.tasks && s.tasks[e.t].id == id)
    || (e.Fire? && e.timer.id == id && id in s.parked)
  }

  predicate Killed(s: State, evs: seq<Event>, id: Id)
    requires Runs(s, evs)
    decreases |evs|
  {
    evs != [] && (Kills(s, evs[0], id) || Killed(Next(s, evs[0]), evs[1..], id))
  }

  /** `id` has been finished off or is about to be. */
  ghost predicate Doomed(s: State, id: Id) {
    0 < s.ended[id] || exists t <- s.tasks :: s.tasks[t].id == id && (s.tasks[t].Ending? || s.tasks[t].Expired?)
  }

  lemma DoomedByKill(s: State, e: Event, id: Id)
    requires Enabled(s, e) && !Doomed(s, id) && Doomed(Next(s, e), id)
    ensures Kills(s, e, id)
  {
    var s' := Next(s, e);
    if s'.ended[id] == 0 {
      var t :| t in s'.tasks && s'.tasks[t].id == id && (s'.tasks[t].Ending? || s'.tasks[t].Expired?);
      assert !(t in s.tasks && s.tasks[t] == s'.tasks[t]);
    }
  }

  lemma {:induction false} DoomedIsKilled(s: State, evs: seq<Event>, id: Id)
    requires Runs(s, evs) && !Doomed(s, id) && Doomed(Run(s, evs), id)
    ensures Killed(s, evs, id)
    decreases |evs|
  {
    hide Next, Doomed, Kills;
    if evs != [] {
      if Doomed(Next(s, evs[0]), id) {
        DoomedByKill(s, evs[0], id);
      } else {
        DoomedIsKilled(Next(s, evs[0]), evs[1..], id);
      }
    }
  }

  /** In every run a session ends only after its guacd closed or a timer found it parked: never because a client left. */
  lemma EndsOnlyByLoss(grace: nat, jobsPath: bool, evs: seq<Event>, id: Id)
    requires Runs(Init(grace, jobsPath), evs) && 0 < Run(Init(grace, jobsPath), evs).ended[id]
    ensures Killed(Init(grace, jobsPath), evs, id)
  {
    DoomedIsKilled(Init(grace, jobsPath), evs, id);
  }

  // ---- The relay loop and the shared state it hands sessions to ----

  /** What one turn of the relay's select saw. */
  datatype Turn =
    | ClientData(guacdWriteOk: bool)
    | ClientEof
    | ClientError
    | GuacdData(clientWriteOk: bool)
    | GuacdEof
    | GuacdError
  {
    /** The client side is gone and guacd is still alive. */
    predicate LosesClient() {
      ClientEof? || ClientError? || (GuacdData? && !clientWriteOk)
    }

    predicate LosesGuacd() {
      GuacdEof? || GuacdError? || (ClientData? && !guacdWriteOk)
    }
  }

  /** The turn at which the relay stops. */
  predicate FirstLoss(turns: seq<Turn>, k: nat) {
    && k < |turns| && (turns[k].LosesClient() || turns[k].LosesGuacd())
    && forall j | 0 <= j < k :: !turns[j].LosesClient() && !turns[j].LosesGuacd()
  }

  /** Relays until one side goes away; `Some(true)` asks the caller to park the stream. */
  method RelayGuac(turns: seq<Turn>) returns (outcome: Option<bool>)
    ensures outcome.None? <==> forall k | 0 <= k < |turns| :: !turns[k].LosesClient() && !turns[k].LosesGuacd()
    ensures outcome.Some? ==>
      exists k: nat :: FirstLoss(turns, k) && if outcome.value then turns[k].LosesClient() else turns[k].LosesGuacd()
  {
    for i := 0 to |turns|
      invariant forall k | 0 <= k < i :: !turns[k].LosesClient() && !turns[k].LosesGuacd()
    {
      assert turns[i].LosesClient() || turns[i].LosesGuacd() ==> FirstLoss(turns, i);
      match turns[i]
      case ClientEof => return Some(true);
      case ClientError => return Some(true);
      case ClientData(ok) => if !ok { return Some(false); }
      case GuacdEof => return Some(false);
      case GuacdError => return Some(false);
      case GuacdData(ok) => if !ok { return Some(true); }
    }
    return None;
  }

  /** The gateway's shared fields; each method is what one task does between two awaits. */
  class Gateway {
    const grace: nat
    const jobsPath: bool
    var now: nat
    var tasks: map<TaskId, Phase>
    var parked: map<Id, Entry>
    var timers: multiset<Timer>
    var jobs: multiset<RecordingMeta>
    ghost var started: map<Id, Option<RecordingMeta>>
    ghost var ended: multiset<Id>

    ghost function View(): State
      reads this
    {
      State(grace, jobsPath, now, tasks, parked, timers, started, ended, jobs)
    }

    constructor (grace: nat, jobsPath: bool)
      ensures View() == Init(grace, jobsPath)
    {
      this.grace, this.jobsPath := grace, jobsPath;
      now, tasks, parked, timers, jobs := 0, map[], map[], multiset{}, multiset{};
      started, ended := map[], multiset{};
    }

    method NewSession(t: TaskId, id: Id, meta: Option<RecordingMeta>)
      requires Enabled(View(), Connect(t, id, meta))
      modifies this
      ensures View() == Next(old(View()), Connect(t, id, meta))
    {
      tasks := tasks[t := Relaying(id, meta)];
      started := started[id := meta];
    }

    /** The reconnect path: take the stream out of the map, if it is still there. */
    method TakeParked(t: TaskId, id: Id) returns (found: bool)
      requires t !in tasks
      modifies this
      ensures found == (id in old(parked))
      ensures View() == if found then Next(old(View()), Reconnect(t, id)) else old(View())
    {
      found := id in parked;
      if found {
        tasks := tasks[t := Relaying(id, parked[id].meta)];
        parked := parked - {id};
      }
    }

    /** `relay_guac` returned. */
    method RelayEnded(t: TaskId, clientGone: bool)
      requires t in tasks && tasks[t].Relaying?
      modifies this
      ensures View() == Next(old(View()), if clientGone then ClientGone(t) else GuacdClosed(t))
    {
      var p := tasks[t];
      tasks := tasks[t := if clientGone then Parking(p.id, p.meta) else Ending(p.id, p.meta)];
    }

    /** `relay_guac` and what its caller makes of the result. */
    method RelayAndLeave(t: TaskId, turns: seq<Turn>) returns (left: bool)
      requires t in tasks && tasks[t].Relaying?
      modifies this
      ensures !left ==> View() == old(View()) && forall k: nat :: !FirstLoss(turns, k)
      ensures left ==> exists k: nat :: FirstLoss(turns, k)
      ensures forall k: nat | FirstLoss(turns, k) ::
                && left && View() == Next(old(View()), if turns[k].LosesClient() then ClientGone(t) else GuacdClosed(t))
                && match turns[k]
                   case ClientEof => tasks[t].Parking?
                   case ClientError => tasks[t].Parking?
                   case GuacdData(ok) => !ok && tasks[t].Parking?
                   case GuacdEof => tasks[t].Ending?
                   case GuacdError => tasks[t].Ending?
                   case ClientData(ok) => !ok && tasks[t].Ending?
    {
      var outcome := RelayGuac(turns);
      if outcome.None? {
        return false;
      }
      assert forall j: nat, k: nat | FirstLoss(turns, j) && FirstLoss(turns, k) :: j == k;
      RelayEnded(t, outcome.value);
      return true;
    }

    /** First half of `park_session`. */
    method InsertParked(t: TaskId)
      requires t in tasks && tasks[t].Parking?
      modifies this
      ensures View() == Next(old(View()), Insert(t))
    {
      var p := tasks[t];
      parked := parked[p.id := Entry(p.meta, now)];
      tasks := tasks[t := Arming(p.id)];
    }

    /** Second half of `park_session`: the detached timer task starts to sleep. */
    method SpawnTimer(t: TaskId)
      requires t in tasks && tasks[t].Arming?
      modifies this
      ensures View() == Next(old(View()), Arm(t))
    {
      timers := timers + multiset{Timer(tasks[t].id, now + grace)};
      tasks := tasks - {t};
    }

    /** The timer task wakes up; a session already resumed makes it a silent no-op. */
    method TimerWakes(timer: Timer, t: TaskId)
      requires timer in timers && timer.due <= now && t !in tasks
      modifies this
      ensures View() == Next(old(View()), Fire(timer, t))
    {
      timers := timers - multiset{timer};
      if timer.id in parked {
        tasks := tasks[t := Expired(timer.id, parked[timer.id].meta)];
        parked := parked - {timer.id};
      }
    }

    method WriteJobFile(t: TaskId)
      requires t in tasks && (tasks[t].Ending? || tasks[t].Expired?)
      modifies this
      ensures View() == Next(old(View()), Finish(t))
    {
      var p := tasks[t];
      if p.meta.Some? && jobsPath {
        jobs := jobs + multiset{p.meta.value};
      }
      ended := ended + multiset{p.id};
      tasks := tasks - {t};
    }

    method Tick()
      requires !Urgent(View())
      modifies this
      ensures View() == Next(old(View()), Advance)
    {
      now := now + 1;
    }

    /** The step the scheduler lets run next. */
    method Perform(e: Event)
      requires Enabled(View(), e)
      modifies this
      ensures View() == Next(old(View()), e)
    {
      match e
      case Connect(t, id, meta) => NewSession(t, id, meta);
      case Reconnect(t, id) => var _ := TakeParked(t, id);
      case ClientGone(t) => RelayEnded(t, true);
      case GuacdClosed(t) => RelayEnded(t, false);
      case Insert(t) => InsertParked(t);
      case Arm(t) => SpawnTimer(t);
      case Fire(timer, t) => TimerWakes(timer, t);
      case Finish(t) => WriteJobFile(t);
      case Advance => Tick();
    }

    /** Under any schedule the fields follow the machine and keep its invariant. */
    method Drive(evs: seq<Event>)
      requires Inv(View()) && Runs(View(), evs)
      modifies this
      ensures View() == Run(old(View()), evs) && Inv(View())
    {
      hide Next;
      hide Enabled;
      hide Inv;
      for i := 0 to |evs|
        invariant Inv(View()) && Runs(View(), evs[i..])
        invariant Run(View(), evs[i..]) == Run(old(View()), evs)
      {
        assert evs[i..][0] == evs[i] && evs[i..][1..] == evs[i + 1..];
        InvKept(View(), evs[i]);
        Perform(evs[i]);
      }
    }
  }
}
