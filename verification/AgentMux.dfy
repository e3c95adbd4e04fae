/**
 The ssh-agent phase as a protocol between four parties over byte streams:

   agent client --0--> request relay --1--> user's client --2--> local agent
   agent client <--5-- reply relay   <--4-- user's client <--3-- local agent

 Every link is a FIFO of bytes that writers fill and readers drain in pieces of any size.
 */
module AgentMux {
  import opened Bytes
  import opened AgentFrames

  /** Bytes not written yet, bytes under way, and bytes the reader has collected. */
  datatype Link = Link(unsent: seq<byte>, wire: seq<byte>, got: seq<byte>) {
    function All(): seq<byte> {
      got + wire + unsent
    }
  }

  const QUIET := Link([], [], [])

  datatype GatewayPhase = Idle | Waiting | Finished(ok: bool)
  datatype ClientPhase = Serving | Awaiting | Done(line: seq<byte>)

  /** The logs are history: requests issued, requests the agent saw, replies it gave, replies that came back. */
  datatype State = State(
    gateway: GatewayPhase,
    client: ClientPhase,
    links: seq<Link>,
    asked: seq<seq<byte>>,
    seen: seq<seq<byte>>,
    answered: seq<seq<byte>>,
    received: seq<seq<byte>>,
    ptyOut: seq<byte>,
    ptyIn: seq<byte>)
  {
    predicate Shaped() {
      |links| == 6
    }
  }

  datatype Event =
    | Ask(request: seq<byte>)
    | Push(k: nat, n: nat)
    | Pull(k: nat, n: nat)
    | Deliver(k: nat, reply: seq<byte>)
    | Finish(ok: bool)
    | Output(data: seq<byte>)
    | Input(data: seq<byte>)

  /** "200 CONNECTED" or "401 UNAUTHORIZED" */
  function StatusLine(ok: bool): (line: seq<byte>)
    ensures IsStatusLine(line)
  {
    if ok then [50, 48, 48, 32, 67, 79, 78, 78, 69, 67, 84, 69, 68]
    else [52, 48, 49, 32, 85, 78, 65, 85, 84, 72, 79, 82, 73, 90, 69, 68]
  }

  predicate Contains(s: seq<byte>, t: seq<byte>) {
    exists i | 0 <= i <= |s| - |t| :: t <= s[i..]
  }

  /** What the client makes of the line: anything that is not a 200 with CONNECTED in it ends the session. */
  predicate Accepts(line: seq<byte>) {
    Ascii("200") <= line && Contains(line, Ascii("CONNECTED"))
  }

  lemma StatusLineText()
    ensures StatusLine(true) == Ascii("200 CONNECTED") && StatusLine(false) == Ascii("401 UNAUTHORIZED")
  {}

  /** The client goes on exactly when the gateway has authenticated. */
  lemma StatusLineMeans(ok: bool)
    ensures StatusLine(true) == Ascii("200 CONNECTED") && StatusLine(false) == Ascii("401 UNAUTHORIZED")
    ensures Accepts(StatusLine(ok)) <==> ok
  {
    StatusLineText();
    hide StatusLine, Ascii;
    if ok {
      var line := Ascii("200 CONNECTED");
      assert Ascii("200") <= line;
      assert Ascii("CONNECTED") <= line[4..];
    } else {
      assert Ascii("200")[0] != Ascii("401 UNAUTHORIZED")[0];
    }
  }

  function Init(): State {
    State(Idle, Serving, seq(6, _ => QUIET), [], [], [], [], [], [])
  }

  predicate Tagged(k: nat) {
    k == 1 || k == 4
  }

  function Framed(k: nat, m: seq<byte>): seq<byte> {
    if Tagged(k) then Record(m) else m
  }

  /** Past the agent phase the client's link and the gateway's link carry terminal bytes as they come. */
  predicate Raw(s: State, k: nat) {
    (k == 1 && s.client.Done?) || (k == 4 && s.gateway.Finished?)
  }

  predicate StatusMode(k: nat, got: seq<byte>) {
    k == 1 && got != [] && got[0] != TAG
  }

  /** What the reader's current read call still wants; 0 when it has a whole message or line. */
  function Want(k: nat, got: seq<byte>): nat {
    if StatusMode(k, got) then
      if got[|got| - 1] == LF || MAX_LINE <= |got| then 0 else 1
    else if Tagged(k) && got == [] then 1
    else
      var m := if Tagged(k) then got[1..] else got;
      if m == [] then 1
      else if |m| < 4 then 4 - |m|
      else if MAX_AGENT_FRAME < U32(m) || 4 + U32(m) <= |m| then 0
      else 4 + U32(m) - |m|
  }

  predicate Listening(s: State, k: nat) {
    (k == 1 ==> !s.client.Awaiting?) && (k == 3 ==> s.client.Awaiting?)
  }

  predicate Enabled(s: State, e: Event)
    requires s.Shaped()
  {
    match e
    case Ask(m) => s.gateway.Idle? && IsMessage(m)
    case Push(k, n) => k < 6 && 1 <= n <= |s.links[k].unsent|
    case Pull(k, n) =>
      && k < 6 && Listening(s, k) && 1 <= n <= |s.links[k].wire|
      && (Raw(s, k) || n <= Want(k, s.links[k].got))
    case Deliver(k, reply) =>
      && k < 6 && Listening(s, k) && !Raw(s, k) && s.links[k].got != [] && Want(k, s.links[k].got) == 0
      && (k == 2 ==> IsMessage(reply))
    case Finish(ok) => s.gateway.Idle?
    case Output(data) => s.gateway == Finished(true)
    case Input(data) => s.client.Done?
  }

  function Written(links: seq<Link>, k: nat, bytes: seq<byte>): seq<Link>
    requires k < |links|
  {
    links[k := links[k].(unsent := links[k].unsent + bytes)]
  }

  /** Reader `k` takes its message off and `bytes` are handed to the writer of link `to`. */
  function Passed(links: seq<Link>, k: nat, to: nat, bytes: seq<byte>): seq<Link>
    requires k < |links| && to < |links|
  {
    Written(links[k := links[k].(got := [])], to, bytes)
  }

  function Next(s: State, e: Event): (s': State)
    requires s.Shaped() && Enabled(s, e)
    ensures s'.Shaped()
  {
    match e
    case Ask(m) => s.(gateway := Waiting, asked := s.asked + [m], links := Written(s.links, 0, m))
    case Push(k, n) =>
      var l := s.links[k];
      s.(links := s.links[k := Link(l.unsent[n..], l.wire + l.unsent[..n], l.got)])
    case Pull(k, n) =>
      var l := s.links[k];
      s.(links := s.links[k := Link(l.unsent, l.wire[n..], l.got + l.wire[..n])])
    case Deliver(k, reply) =>
      var got := s.links[k].got;
      if k == 0 then s.(links := Passed(s.links, 0, 1, [TAG] + got))
      else if k == 1 then
        if got[0] == TAG then s.(client := Awaiting, links := Passed(s.links, 1, 2, got[1..]))
        else
          var line := if got[|got| - 1] == LF then got[..|got| - 1] else got;
          s.(client := Done(line), links := s.links[1 := s.links[1].(got := [])])
      else if k == 2 then
        s.(seen := s.seen + [got], answered := s.answered + [reply], links := Passed(s.links, 2, 3, reply))
      else if k == 3 then s.(client := Serving, links := Passed(s.links, 3, 4, [TAG] + got))
      else if k == 4 then s.(links := Passed(s.links, 4, 5, got[1..]))
      else s.(gateway := Idle, received := s.received + [got], links := s.links[5 := s.links[5].(got := [])])
    case Finish(ok) => s.(gateway := Finished(ok), links := Written(s.links, 1, StatusLine(ok) + [LF]))
    case Output(data) => s.(ptyOut := s.ptyOut + data, links := Written(s.links, 1, data))
    case Input(data) => s.(ptyIn := s.ptyIn + data, links := Written(s.links, 4, data))
  }

  predicate Runs(s: State, evs: seq<Event>)
    requires s.Shaped()
    decreases |evs|
  {
    evs == [] || (Enabled(s, evs[0]) && Runs(Next(s, evs[0]), evs[1..]))
  }

  function Run(s: State, evs: seq<Event>): (s': State)
    requires s.Shaped() && Runs(s, evs)
    ensures s'.Shaped()
    decreases |evs|
  {
    if evs == [] then s else Run(Next(s, evs[0]), evs[1..])
  }

  // ---- Where the one message is ----

  /**
   `Rest`: nothing under way. `Carry`: message `m` is the only thing under way, on link `k`.
   `Closing`: the status line is on its way to the client. `Over`: the terminal session runs.
   */
  datatype Stage = Rest | Carry(k: nat, m: seq<byte>) | Closing(ok: bool) | Over(ok: bool)

  ghost predicate OthersQuiet(links: seq<Link>, busy: set<nat>) {
    forall k | 0 <= k < |links| && k !in busy :: links[k] == QUIET
  }

  /** No exchange is open: every request issued was seen and answered, and every answer came back. */
  ghost predicate Settled(s: State) {
    s.asked == s.seen && s.answered == s.received && |s.seen| == |s.answered|
  }

  ghost predicate CarryPhase(s: State, k: nat) {
    s.gateway.Waiting? && s.client == if k == 2 || k == 3 then Awaiting else Serving
  }

  ghost predicate CarryLogs(s: State, k: nat, m: seq<byte>) {
    && |s.seen| == |s.answered| && s.ptyOut == s.ptyIn == []
    && if k <= 2 then s.asked == s.seen + [m] && s.answered == s.received
       else s.asked == s.seen && s.answered == s.received + [m]
  }

  ghost predicate InStage(s: State, st: Stage)
    requires s.Shaped()
  {
    match st
    case Rest =>
      s.gateway.Idle? && s.client.Serving? && OthersQuiet(s.links, {}) && Settled(s) && s.ptyOut == s.ptyIn == []
    case Carry(k, m) =>
      && k < 6 && IsMessage(m) && OthersQuiet(s.links, {k}) && s.links[k].All() == Framed(k, m)
      && CarryPhase(s, k) && CarryLogs(s, k, m)
    case Closing(ok) =>
      && s.gateway == Finished(ok) && s.client.Serving? && OthersQuiet(s.links, {1}) && Settled(s)
      && s.links[1].All() == StatusLine(ok) + [LF] + s.ptyOut
      && |s.links[1].got| <= |StatusLine(ok)| + 1 && s.ptyIn == []
    case Over(ok) =>
      && s.gateway == Finished(ok) && s.client == Done(StatusLine(ok)) && OthersQuiet(s.links, {1, 4}) && Settled(s)
      && s.links[1].All() == s.ptyOut && s.links[4].All() == s.ptyIn
  }

  /** A reader that wants nothing more of a message's frame has exactly that frame. */
  lemma WholeFrame(k: nat, m: seq<byte>, got: seq<byte>)
    requires k < 6 && IsMessage(m) && got != [] && got <= Framed(k, m)
    ensures !StatusMode(k, got)
    ensures Want(k, got) == 0 <==> got == Framed(k, m)
    ensures Want(k, got) <= |Framed(k, m)| - |got|
  {
    var frame := Framed(k, m);
    assert got[0] == frame[0];
    if Tagged(k) {
      assert got[1..] == m[..|got| - 1];
    }
  }

  lemma WholeLine(ok: bool, got: seq<byte>)
    requires got != [] && got <= StatusLine(ok) + [LF]
    ensures StatusMode(1, got)
    ensures Want(1, got) == 0 <==> got == StatusLine(ok) + [LF]
    ensures Want(1, got) <= 1
  {
    var line := StatusLine(ok);
    assert got[0] == line[0];
    var last := got[|got| - 1];
    if |got| <= |line| {
      assert last == line[|got| - 1] && last in line;
    } else {
      assert got == line + [LF];
    }
  }

  lemma MoveKeepsAll(l: Link, n: nat)
    ensures n <= |l.unsent| ==> Link(l.unsent[n..], l.wire + l.unsent[..n], l.got).All() == l.All()
    ensures n <= |l.wire| ==> Link(l.unsent, l.wire[n..], l.got + l.wire[..n]).All() == l.All()
  {}

  lemma PushStep(s: State, e: Event, st: Stage)
    requires s.Shaped() && Enabled(s, e) && e.Push? && InStage(s, st)
    ensures InStage(Next(s, e), st)
  {
    MoveKeepsAll(s.links[e.k], e.n);
  }

  lemma PullStep(s: State, e: Event, st: Stage)
    requires s.Shaped() && Enabled(s, e) && e.Pull? && InStage(s, st)
    ensures InStage(Next(s, e), st)
  {
    hide Want;
    MoveKeepsAll(s.links[e.k], e.n);
    if st.Closing? {
      PullLine(s.links[1], st.ok, s.ptyOut, if e.k == 1 then e.n else 0);
    }
  }

  /** The client's byte-wise reads stop at the end of the line. */
  lemma PullLine(l: Link, ok: bool, after: seq<byte>, n: nat)
    requires l.All() == StatusLine(ok) + [LF] + after && |l.got| <= |StatusLine(ok)| + 1
    requires n <= |l.wire| && n <= Want(1, l.got)
    ensures |l.got| + n <= |StatusLine(ok)| + 1
  {
    if l.got != [] {
      assert l.got == (StatusLine(ok) + [LF] + after)[..|l.got|] == (StatusLine(ok) + [LF])[..|l.got|];
      WholeLine(ok, l.got);
    }
  }

  /** A complete frame leaves nothing behind on its link. */
  lemma FrameAlone(s: State, k: nat, m: seq<byte>)
    requires s.Shaped() && InStage(s, Carry(k, m)) && s.links[k].got != [] && Want(k, s.links[k].got) == 0
    ensures s.links[k] == Link([], [], Framed(k, m))
  {
    var l := s.links[k];
    assert l.got == l.All()[..|l.got|];
    WholeFrame(k, m, l.got);
    assert |l.All()| == |l.got| + |l.wire| + |l.unsent|;
  }

  function After(s: State, k: nat, m: seq<byte>, reply: seq<byte>): Stage {
    if k == 2 then Carry(3, reply) else if k == 5 then Rest else Carry(k + 1, m)
  }

  lemma PassedAlone(links: seq<Link>, k: nat, to: nat, frame: seq<byte>, bytes: seq<byte>)
    requires k < |links| && to < |links| && k != to
    requires OthersQuiet(links, {k}) && links[k] == Link([], [], frame)
    ensures OthersQuiet(Passed(links, k, to, bytes), {to})
    ensures Passed(links, k, to, bytes)[to].All() == bytes
  {
    var links' := Passed(links, k, to, bytes);
    assert links'[to].unsent == [] + bytes == bytes;
    assert [] + [] + bytes == bytes;
  }

  /** Every reader but the last hands the message to the next link. */
  lemma DeliverOn(s: State, k: nat, m: seq<byte>, reply: seq<byte>)
    requires s.Shaped() && InStage(s, Carry(k, m)) && Enabled(s, Deliver(k, reply)) && k < 5
    ensures InStage(Next(s, Deliver(k, reply)), After(s, k, m, reply))
  {
    hide Want, IsMessage;
    FrameAlone(s, k, m);
    assert Record(m)[1..] == m;
    hide Passed, OthersQuiet;
    PassedAlone(s.links, k, k + 1, Framed(k, m), Framed(k + 1, if k == 2 then reply else m));
  }

  lemma DeliverLast(s: State, m: seq<byte>, reply: seq<byte>)
    requires s.Shaped() && InStage(s, Carry(5, m)) && Enabled(s, Deliver(5, reply))
    ensures InStage(Next(s, Deliver(5, reply)), Rest)
  {
    hide Want, IsMessage, Passed;
    FrameAlone(s, 5, m);
  }

  lemma DeliverMessage(s: State, k: nat, m: seq<byte>, reply: seq<byte>)
    requires s.Shaped() && InStage(s, Carry(k, m)) && Enabled(s, Deliver(k, reply))
    ensures InStage(Next(s, Deliver(k, reply)), After(s, k, m, reply))
  {
    assert k < 6;
    hide InStage, Enabled, Next;
    if k < 5 {
      DeliverOn(s, k, m, reply);
    } else {
      DeliverLast(s, m, reply);
    }
  }

  /** A complete status line leaves only terminal bytes behind. */
  lemma LineAlone(l: Link, ok: bool, after: seq<byte>)
    requires l.All() == StatusLine(ok) + [LF] + after && |l.got| <= |StatusLine(ok)| + 1
    requires l.got != [] && Want(1, l.got) == 0
    ensures l.got == StatusLine(ok) + [LF] && l.(got := []).All() == after
  {
    hide Want, StatusLine;
    var line := StatusLine(ok) + [LF];
    GotIsPrefix(l, line, after);
    WholeLine(ok, l.got);
    RestIsLeft(l, after);
  }

  lemma GotIsPrefix(l: Link, line: seq<byte>, after: seq<byte>)
    requires l.All() == line + after && |l.got| <= |line|
    ensures l.got <= line
  {
    assert l.got == (line + after)[..|l.got|] == line[..|l.got|];
  }

  lemma RestIsLeft(l: Link, after: seq<byte>)
    requires l.All() == l.got + after
    ensures l.(got := []).All() == after
  {
    assert l.(got := []).All() == l.All()[|l.got|..] == after;
  }

  lemma DeliverLine(s: State, reply: seq<byte>, ok: bool)
    requires s.Shaped() && InStage(s, Closing(ok)) && Enabled(s, Deliver(1, reply))
    ensures InStage(Next(s, Deliver(1, reply)), Over(ok))
  {
    hide Want, IsMessage, CarryLogs, CarryPhase, Framed, Passed, Written;
    LineAlone(s.links[1], ok, s.ptyOut);
    assert (StatusLine(ok) + [LF])[..|StatusLine(ok)|] == StatusLine(ok);
  }

  lemma OutputStep(s: State, e: Event, st: Stage)
    requires s.Shaped() && Enabled(s, e) && (e.Output? || e.Input?) && InStage(s, st)
    ensures InStage(Next(s, e), st)
  {
    hide Want;
    var k := if e.Output? then 1 else 4;
    var l := s.links[k];
    assert l.(unsent := l.unsent + e.data).All() == l.All() + e.data;
    if st.Closing? {
      Assoc(StatusLine(st.ok) + [LF], s.ptyOut, e.data);
    }
  }

  lemma AskStep(s: State, m: seq<byte>)
    requires s.Shaped() && Enabled(s, Ask(m)) && InStage(s, Rest)
    ensures InStage(Next(s, Ask(m)), Carry(0, m))
  {
    assert Next(s, Ask(m)).links[0].All() == m;
  }

  lemma FinishStep(s: State, ok: bool)
    requires s.Shaped() && Enabled(s, Finish(ok)) && InStage(s, Rest)
    ensures InStage(Next(s, Finish(ok)), Closing(ok))
  {
    assert Next(s, Finish(ok)).links[1].All() == StatusLine(ok) + [LF] + s.ptyOut;
  }

  /** While a message is under way only its own link can move. */
  lemma CarryEvents(s: State, e: Event, k: nat, m: seq<byte>)
    requires s.Shaped() && Enabled(s, e) && InStage(s, Carry(k, m))
    ensures (e.Push? || e.Pull? || e.Deliver?) && e.k == k
  {
    hide Want;
  }

  lemma ClosingDelivers(s: State, e: Event, st: Stage)
    requires s.Shaped() && Enabled(s, e) && e.Deliver? && InStage(s, st)
    ensures st.Carry? || (st.Closing? && e.k == 1)
  {
    hide Want;
  }

  lemma StageStep(s: State, e: Event, st: Stage) returns (st': Stage)
    requires s.Shaped() && Enabled(s, e) && InStage(s, st)
    ensures InStage(Next(s, e), st')
  {
    match e
    case Ask(m) =>
      hide Next, Want, IsMessage;
      st' := Carry(0, m);
      AskStep(s, m);
    case Push(_, _) =>
      hide *;
      st' := st;
      PushStep(s, e, st);
    case Pull(_, _) =>
      hide *;
      st' := st;
      PullStep(s, e, st);
    case Deliver(k, reply) =>
      st' := DeliverStep(s, e, st);
    case Finish(ok) =>
      hide Next, Want, IsMessage;
      st' := Closing(ok);
      FinishStep(s, ok);
    case _ =>
      hide *;
      st' := st;
      OutputStep(s, e, st);
  }

  lemma DeliverStep(s: State, e: Event, st: Stage) returns (st': Stage)
    requires s.Shaped() && Enabled(s, e) && e.Deliver? && InStage(s, st)
    ensures InStage(Next(s, e), st')
  {
    hide *;
    ClosingDelivers(s, e, st);
    if st.Closing? {
      st' := Over(st.ok);
      DeliverLine(s, e.reply, st.ok);
    } else {
      CarryEvents(s, e, st.k, st.m);
      st' := After(s, st.k, st.m, e.reply);
      DeliverMessage(s, st.k, st.m, e.reply);
    }
  }

  lemma {:induction false} RunKeepsStage(s: State, evs: seq<Event>, st: Stage) returns (st': Stage)
    requires s.Shaped() && Runs(s, evs) && InStage(s, st)
    ensures InStage(Run(s, evs), st')
    decreases |evs|
  {
    hide Next, InStage, Enabled;
    if evs == [] {
      st' := st;
    } else {
      st' := StageStep(s, evs[0], st);
      st' := RunKeepsStage(Next(s, evs[0]), evs[1..], st');
    }
  }

  lemma Reached(evs: seq<Event>) returns (st: Stage)
    requires Runs(Init(), evs)
    ensures InStage(Run(Init(), evs), st)
  {
    assert InStage(Init(), Rest);
    hide *;
    st := RunKeepsStage(Init(), evs, Rest);
  }

  // ---- What every run keeps ----

  /**
   The local agent sees the requests issued, in order and unchanged, at most the newest missing;
   the gateway gets the agent's answers, in order and unchanged, at most the newest missing; and
   nothing is missing whenever the gateway's agent client is not waiting for a reply.
   */
  lemma ExchangesInOrder(evs: seq<Event>)
    requires Runs(Init(), evs)
    ensures var s := Run(Init(), evs);
      && s.seen <= s.asked && s.received <= s.answered && |s.seen| == |s.answered|
      && |s.asked| <= |s.received| + 1
      && (s.gateway.Waiting? <==> |s.asked| == |s.received| + 1)
      && (!s.gateway.Waiting? ==> s.seen == s.asked && s.received == s.answered)
  {
    var st := Reached(evs);
    hide Run, Runs;
  }

  /** What the serving client finds on the gateway's link: a record of the open request, or the status line. */
  lemma FirstByteDecides(evs: seq<Event>)
    requires Runs(Init(), evs)
    ensures var s := Run(Init(), evs);
      s.client.Serving? && s.links[1].All() != [] ==>
        && (s.links[1].All()[0] == TAG <==> !s.gateway.Finished?)
        && (!s.gateway.Finished? ==> s.asked != [] && s.links[1].All() == Record(s.asked[|s.asked| - 1]))
        && (s.gateway.Finished? ==> s.links[1].All() == StatusLine(s.gateway.ok) + [LF] + s.ptyOut)
  {
    var st := Reached(evs);
    hide Run, Runs;
    var s := Run(Init(), evs);
    if st.Closing? {
      assert s.links[1].All()[0] == StatusLine(st.ok)[0];
    }
  }

  /**
   Once the client has returned the status line it is the gateway's, every exchange is complete, and
   both directions hold terminal bytes only: all that was written, none lost and none consumed.
   */
  lemma CleanHandover(evs: seq<Event>)
    requires Runs(Init(), evs)
    ensures var s := Run(Init(), evs);
      s.client.Done? ==>
        && s.gateway.Finished? && s.client.line == StatusLine(s.gateway.ok) && (Accepts(s.client.line) <==> s.gateway.ok)
        && s.seen == s.asked && s.received == s.answered
        && (forall k | 0 <= k < 6 && k != 1 && k != 4 :: s.links[k].All() == [])
        && s.links[1].All() == s.ptyOut && s.links[4].All() == s.ptyIn
  {
    var st := Reached(evs);
    hide Run, Runs, Accepts;
    StatusLineMeans(true);
    StatusLineMeans(false);
  }

  // ---- Progress ----

  function UnderWay(l: Link): nat {
    2 * |l.unsent| + |l.wire|
  }

  /** An open exchange is never stuck. */
  lemma NeverStuck(s: State, k: nat, m: seq<byte>) returns (e: Event)
    requires s.Shaped() && InStage(s, Carry(k, m))
    ensures Enabled(s, e)
  {
    var l := s.links[k];
    if l.unsent != [] {
      e := Push(k, 1);
    } else {
      assert l.got == l.All()[..|l.got|];
      if l.got != [] { WholeFrame(k, m, l.got); }
      e := if l.wire != [] then Pull(k, 1) else Deliver(k, m);
    }
  }

  /** Whatever moves brings the message closer to its reader, or hands it on. */
  lemma StepProgress(s: State, e: Event, k: nat, m: seq<byte>)
    requires s.Shaped() && InStage(s, Carry(k, m)) && Enabled(s, e)
    ensures if e.Deliver? then InStage(Next(s, e), After(s, k, m, e.reply))
            else InStage(Next(s, e), Carry(k, m)) && UnderWay(Next(s, e).links[k]) < UnderWay(s.links[k])
  {
    CarryEvents(s, e, k, m);
    match e
    case Push(_, _) =>
      hide InStage, Want;
      PushStep(s, e, Carry(k, m));
    case Pull(_, _) =>
      hide InStage, Want;
      PullStep(s, e, Carry(k, m));
    case Deliver(_, reply) =>
      hide *;
      DeliverMessage(s, k, m, reply);
  }

  /** A waiting gateway can always be brought its reply by the relays, the client and the agent alone. */
  lemma {:induction false} ReplyArrives(s: State, k: nat, m: seq<byte>) returns (evs: seq<Event>)
    requires s.Shaped() && InStage(s, Carry(k, m))
    ensures Runs(s, evs) && Run(s, evs).gateway.Idle?
    decreases 6 - k, UnderWay(s.links[k])
  {
    hide Enabled, Next, UnderWay, Want, IsMessage, OthersQuiet, CarryLogs;
    var e := NeverStuck(s, k, m);
    StepProgress(s, e, k, m);
    var s' := Next(s, e);
    var more: seq<Event> := [];
    if !e.Deliver? {
      more := ReplyArrives(s', k, m);
    } else if k == 2 {
      more := ReplyArrives(s', 3, e.reply);
    } else if k < 5 {
      more := ReplyArrives(s', k + 1, m);
    }
    evs := [e] + more;
    assert evs[1..] == more;
  }

  /** The client is not kept waiting for the status line. */
  lemma LineStep(s: State, ok: bool) returns (e: Event)
    requires s.Shaped() && InStage(s, Closing(ok))
    ensures (e.Push? || e.Pull? || e.Deliver?) && e.k == 1 && Enabled(s, e)
    ensures e.Deliver? ==> InStage(Next(s, e), Over(ok))
    ensures !e.Deliver? ==> InStage(Next(s, e), Closing(ok)) && UnderWay(Next(s, e).links[1]) < UnderWay(s.links[1])
  {
    var l := s.links[1];
    e := LineMove(l, ok, s.ptyOut);
    hide Want, InStage, StatusLine;
    match e
    case Push(_, _) => PushStep(s, e, Closing(ok));
    case Pull(_, _) => PullStep(s, e, Closing(ok));
    case Deliver(_, reply) => DeliverLine(s, reply, ok);
  }

  lemma LineMove(l: Link, ok: bool, after: seq<byte>) returns (e: Event)
    requires l.All() == StatusLine(ok) + [LF] + after && |l.got| <= |StatusLine(ok)| + 1
    ensures (e.Push? || e.Pull? || e.Deliver?) && e.k == 1
    ensures e.Push? ==> e.n == 1 <= |l.unsent|
    ensures e.Pull? ==> e.n == 1 <= |l.wire| && 1 <= Want(1, l.got)
    ensures e.Deliver? ==> l.got != [] && Want(1, l.got) == 0
  {
    var line := StatusLine(ok) + [LF];
    hide StatusLine, Want;
    GotIsPrefix(l, line, after);
    if l.got != [] {
      WholeLine(ok, l.got);
    } else {
      WantNothing();
    }
    e := if l.got == line then Deliver(1, []) else if l.wire != [] then Pull(1, 1) else Push(1, 1);
    assert |l.All()| == |l.got| + |l.wire| + |l.unsent|;
  }

  lemma WantNothing()
    ensures Want(1, []) == 1
  {}

  /** The status line can always be brought to the client, whatever follows it on the link. */
  lemma {:induction false} LineArrives(s: State, ok: bool) returns (evs: seq<Event>)
    requires s.Shaped() && InStage(s, Closing(ok))
    ensures Runs(s, evs) && InStage(Run(s, evs), Over(ok))
    ensures forall e <- evs :: (e.Push? || e.Pull? || e.Deliver?) && e.k == 1
    decreases UnderWay(s.links[1])
  {
    hide Enabled, Next, UnderWay, InStage;
    var e := LineStep(s, ok);
    var more: seq<Event> := [];
    if !e.Deliver? {
      more := LineArrives(Next(s, e), ok);
    }
    evs := [e] + more;
    assert evs[1..] == more;
  }

  lemma {:induction false} RunAppend(s: State, evs: seq<Event>, more: seq<Event>)
    requires s.Shaped() && Runs(s, evs) && Runs(Run(s, evs), more)
    ensures Runs(s, evs + more) && Run(s, evs + more) == Run(Run(s, evs), more)
    decreases |evs|
  {
    hide Next, Enabled;
    if evs == [] {
      assert evs + more == more;
    } else {
      RunAppend(Next(s, evs[0]), evs[1..], more);
      assert (evs + more)[0] == evs[0] && (evs + more)[1..] == evs[1..] + more;
    }
  }

  /** Bringing an open exchange, if there is one, to its end. */
  lemma ComesToRest(s: State, st: Stage) returns (evs: seq<Event>)
    requires s.Shaped() && InStage(s, st) && !s.gateway.Finished?
    ensures Runs(s, evs) && InStage(Run(s, evs), Rest)
  {
    evs := [];
    if st.Carry? {
      evs := ReplyArrives(s, st.k, st.m);
      var st' := RunKeepsStage(s, evs, st);
      hide Run, Runs;
      assert st' == Rest;
    }
  }

  /** Ending the phase with the status line. */
  lemma ComesToClosing(s: State, st: Stage) returns (evs: seq<Event>)
    requires s.Shaped() && InStage(s, st) && !s.gateway.Finished?
    ensures Runs(s, evs) && InStage(Run(s, evs), Closing(true))
  {
    evs := ComesToRest(s, st);
    var rest, finish := Run(s, evs), [Finish(true)];
    FinishStep(rest, true);
    assert Enabled(rest, Finish(true));
    hide Next, InStage, Enabled;
    assert finish[1..] == [];
    RunAppend(s, evs, finish);
    evs := evs + finish;
  }

  lemma StageOfFinished(s: State, st: Stage)
    requires s.Shaped() && InStage(s, st)
    ensures s.gateway.Finished? ==> st.Closing? || st.Over?
    ensures st.Over? ==> s.client.Done?
  {}

  /** From every reachable state the terminal session can be reached: no run leads into a dead end. */
  lemma HandoverReachable(evs: seq<Event>) returns (more: seq<Event>)
    requires Runs(Init(), evs)
    ensures Runs(Init(), evs + more) && Run(Init(), evs + more).client.Done?
  {
    var s := Run(Init(), evs);
    var st := Reached(evs);
    hide InStage, Runs, Run;
    StageOfFinished(s, st);
    more := [];
    if !s.gateway.Finished? {
      more := ComesToClosing(s, st);
      st := Closing(true);
    } else {
      assert Runs(s, more) && Run(s, more) == s by { RunNothing(s); }
    }
    if st.Closing? {
      var tail := LineArrives(Run(s, more), st.ok);
      RunAppend(s, more, tail);
      more := more + tail;
      st := Over(st.ok);
    }
    StageOfFinished(Run(s, more), st);
    RunAppend(Init(), evs, more);
  }

  lemma RunNothing(s: State)
    requires s.Shaped()
    ensures Runs(s, []) && Run(s, []) == s
  {}
}
