/**
 The in-band ssh-agent framing: agent messages with a 32-bit length prefix, carried between the
 gateway and the client as records tagged with a zero byte and ended by a status line.
 */
module AgentFrames {
  import opened Wrappers
  import opened Bytes

  const MAX_AGENT_FRAME: nat := 256 * 1024
  const TAG: byte := 0
  const MAX_LINE: nat := 256

  function U32(s: seq<byte>): nat
    requires 4 <= |s|
  {
    var a: int, b: int, c: int := s[0], s[1], s[2];
    0x100_0000 * a + 0x1_0000 * b + 0x100 * c + s[3]
  }

  /** One agent message, length prefix included. */
  predicate IsMessage(m: seq<byte>) {
    4 <= |m| && U32(m) <= MAX_AGENT_FRAME && |m| == 4 + U32(m)
  }

  function Record(m: seq<byte>): seq<byte> {
    [TAG] + m
  }

  function Records(ms: seq<seq<byte>>): seq<byte> {
    if ms == [] then [] else Record(ms[0]) + Records(ms[1..])
  }

  predicate AllMessages(ms: seq<seq<byte>>) {
    forall m <- ms :: IsMessage(m)
  }

  // ---- Reading one message ----

  datatype Message = Eof | Bad | Message(msg: seq<byte>, rest: seq<byte>)

  /** End of file is clean only before the first byte. */
  function TakeMessage(s: seq<byte>): (r: Message)
    ensures r.Message? ==> IsMessage(r.msg) && r.msg + r.rest == s
  {
    if s == [] then Eof
    else if |s| < 4 || MAX_AGENT_FRAME < U32(s) || |s| < 4 + U32(s) then Bad
    else Message(s[..4 + U32(s)], s[4 + U32(s)..])
  }

  lemma TakeMessageFirst(m: seq<byte>, rest: seq<byte>)
    requires IsMessage(m)
    ensures TakeMessage(m + rest) == Message(m, rest)
  {
    assert U32(m + rest) == U32(m);
    assert (m + rest)[..|m|] == m && (m + rest)[|m|..] == rest;
  }

  // ---- What the length prefix spells ----

  /** A number as four bytes, most significant first. */
  function BigEndian(n: nat): (s: seq<byte>)
    requires n < 0x1_0000_0000
    ensures |s| == 4
  {
    [n / 0x100_0000, n / 0x1_0000 % 256, n / 256 % 256, n % 256]
  }

  lemma U32Reads(n: nat, rest: seq<byte>)
    requires n < 0x1_0000_0000
    ensures U32(BigEndian(n) + rest) == n
  {
    var d, c, b, a := n % 256, n / 256 % 256, n / 0x1_0000 % 256, n / 0x100_0000;
    assert n / 0x1_0000 == n / 256 / 256 && n / 0x100_0000 == n / 256 / 256 / 256;
    assert n == 256 * (256 * (256 * a + b) + c) + d;
  }

  lemma U32Spells(s: seq<byte>)
    requires |s| == 4
    ensures U32(s) < 0x1_0000_0000 && BigEndian(U32(s)) == s
  {
    var a: int, b: int, c: int, d: int := s[0], s[1], s[2], s[3];
    var n := U32(s);
    assert n == 256 * (256 * (256 * a + b) + c) + d;
    assert n / 256 == 256 * (256 * a + b) + c && n % 256 == d;
    assert n / 0x1_0000 == n / 256 / 256 == 256 * a + b;
    assert n / 0x100_0000 == n / 256 / 256 / 256 == a;
  }

  /** A body behind its length, most significant byte first, is read with its prefix, and nothing after it. */
  lemma MessageReads(body: seq<byte>, rest: seq<byte>)
    requires |body| <= 262144
    ensures TakeMessage(BigEndian(|body|) + body + rest) == Message(BigEndian(|body|) + body, rest)
  {
    var head := BigEndian(|body|);
    U32Reads(|body|, body);
    assert IsMessage(head + body);
    hide U32;
    TakeMessageFirst(head + body, rest);
  }

  /** A larger length, or less than the length announces, is an error. */
  lemma MessageRefused(n: nat, rest: seq<byte>)
    requires n < 0x1_0000_0000
    ensures 262144 < n || |rest| < n ==> TakeMessage(BigEndian(n) + rest) == Bad
    ensures forall k | 0 < k < 4 :: TakeMessage(BigEndian(n)[..k]) == Bad
    ensures TakeMessage([]) == Eof
  {
    U32Reads(n, rest);
    hide U32;
  }

  /** And these are all there are. */
  lemma MessageSpells(m: seq<byte>)
    ensures IsMessage(m) <==> 4 <= |m| <= 4 + 262144 && m[..4] == BigEndian(|m| - 4)
  {
    if 4 <= |m| {
      assert U32(m) == U32(m[..4]);
      U32Spells(m[..4]);
      if |m| <= 4 + 262144 {
        U32Reads(|m| - 4, []);
        assert BigEndian(|m| - 4) + [] == BigEndian(|m| - 4);
      }
    }
  }

  /** `read_agent_message`, the same on both sides. */
  method ReadAgentMessage(r: ByteStream) returns (res: Message)
    modifies r
    ensures var t := TakeMessage(old(r.pending));
      res == t && (t.Message? ==> r.pending == t.rest)
  {
    ghost var s := r.pending;
    var first := r.Read(1);
    if first == [] {
      return Eof;
    }
    var ok, more := r.ReadExact(3);
    if !ok {
      return Bad;
    }
    var head := first + more;
    assert head == s[..4];
    var len := U32(head);
    if MAX_AGENT_FRAME < len {
      return Bad;
    }
    var full, body := r.ReadExact(len);
    if !full {
      return Bad;
    }
    assert head + body == s[..4 + len];
    return Message(head + body, r.pending);
  }

  // ---- The gateway's relays ----

  /** What a relay wrote before it stopped, and whether it stopped at a clean end of file. */
  datatype Relayed = Relayed(clean: bool, out: seq<byte>)

  function RelayRequests(s: seq<byte>): Relayed
    decreases |s|
  {
    match TakeMessage(s)
    case Eof => Relayed(true, [])
    case Bad => Relayed(false, [])
    case Message(m, rest) =>
      var more := RelayRequests(rest);
      Relayed(more.clean, Record(m) + more.out)
  }

  function RelayReplies(s: seq<byte>): Relayed
    decreases |s|
  {
    if s == [] then Relayed(true, [])
    else if s[0] != TAG then Relayed(false, [])
    else
      match TakeMessage(s[1..])
      case Message(m, rest) =>
        var more := RelayReplies(rest);
        Relayed(more.clean, m + more.out)
      case _ => Relayed(false, [])
  }

  /** `relay_agent_requests` */
  method RelayAgentRequests(pr: ByteStream) returns (res: Relayed)
    modifies pr
    ensures res == RelayRequests(old(pr.pending))
  {
    hide TakeMessage;
    var cw: seq<byte> := [];
    ghost var all := RelayRequests(pr.pending);
    while true
      invariant Relayed(RelayRequests(pr.pending).clean, cw + RelayRequests(pr.pending).out) == all
      decreases |pr.pending|
    {
      var m := ReadAgentMessage(pr);
      match m {
        case Eof =>
          assert cw + [] == cw;
          return Relayed(true, cw);
        case Bad =>
          assert cw + [] == cw;
          return Relayed(false, cw);
        case Message(msg, _) =>
          Assoc(cw, Record(msg), RelayRequests(pr.pending).out);
          assert cw + [TAG] + msg == cw + Record(msg);
          cw := cw + [TAG] + msg;
      }
    }
  }

  /** `relay_agent_replies` */
  method RelayAgentReplies(cr: ByteStream) returns (res: Relayed)
    modifies cr
    ensures res == RelayReplies(old(cr.pending))
  {
    var pw: seq<byte> := [];
    ghost var all := RelayReplies(cr.pending);
    while true
      invariant Relayed(RelayReplies(cr.pending).clean, pw + RelayReplies(cr.pending).out) == all
      decreases |cr.pending|
    {
      ghost var s := cr.pending;
      var tag := cr.Read(1);
      assert tag != [] ==> cr.pending == s[1..] && tag[0] == s[0];
      if tag == [] || tag[0] != TAG {
        assert pw + [] == pw;
        return Relayed(tag == [], pw);
      }
      var m := ReadAgentMessage(cr);
      if !m.Message? {
        assert pw + [] == pw;
        return Relayed(false, pw);
      }
      Assoc(pw, m.msg, RelayReplies(cr.pending).out);
      pw := pw + m.msg;
    }
  }

  lemma {:induction false} RequestsAreTagged(ms: seq<seq<byte>>)
    requires AllMessages(ms)
    ensures RelayRequests(Concat(ms)) == Relayed(true, Records(ms))
  {
    if ms != [] {
      assert IsMessage(ms[0]) && AllMessages(ms[1..]);
      TakeMessageFirst(ms[0], Concat(ms[1..]));
      RequestsAreTagged(ms[1..]);
    }
  }

  lemma RelayOneReply(m: seq<byte>, rest: seq<byte>)
    requires IsMessage(m)
    ensures RelayReplies(Record(m) + rest) == Relayed(RelayReplies(rest).clean, m + RelayReplies(rest).out)
  {
    hide TakeMessage, IsMessage;
    assert (Record(m) + rest)[1..] == m + rest;
    TakeMessageFirst(m, rest);
  }

  lemma {:induction false} RepliesAreUntagged(ms: seq<seq<byte>>)
    requires AllMessages(ms)
    ensures RelayReplies(Records(ms)) == Relayed(true, Concat(ms))
  {
    if ms != [] {
      assert IsMessage(ms[0]) && AllMessages(ms[1..]);
      hide AllMessages, TakeMessage, IsMessage;
      RepliesAreUntagged(ms[1..]);
      hide Records, Concat;
      RelayOneReply(ms[0], Records(ms[1..]));
    }
  }

  /** The two relays undo each other on any sequence of messages. */
  lemma RelaysInvert(ms: seq<seq<byte>>)
    requires AllMessages(ms)
    ensures RelayReplies(RelayRequests(Concat(ms)).out) == Relayed(true, Concat(ms))
  {
    RequestsAreTagged(ms);
    RepliesAreUntagged(ms);
  }

  /** What one request looks like to the client: a zero byte, the length, the body. */
  lemma RequestOnTheWire(body: seq<byte>)
    requires |body| <= 262144
    ensures RelayRequests(BigEndian(|body|) + body) == Relayed(true, [0] + (BigEndian(|body|) + body))
    ensures RelayReplies([0] + (BigEndian(|body|) + body)) == Relayed(true, BigEndian(|body|) + body)
  {
    var m := BigEndian(|body|) + body;
    MessageReads(body, []);
    assert m + [] == m && ([0] + m)[1..] == m;
    hide TakeMessage, BigEndian;
    assert RelayRequests([]) == Relayed(true, []) && RelayReplies([]) == Relayed(true, []);
  }

  /** A broken message ends the relay of requests; every message before it was written. */
  lemma {:induction false} RequestsStop(ms: seq<seq<byte>>, bad: seq<byte>)
    requires AllMessages(ms) && TakeMessage(bad).Bad?
    ensures RelayRequests(Concat(ms) + bad) == Relayed(false, Records(ms))
  {
    hide TakeMessage;
    if ms == [] {
      assert Concat(ms) + bad == bad;
    } else {
      assert IsMessage(ms[0]) && AllMessages(ms[1..]);
      hide IsMessage, AllMessages;
      Assoc(ms[0], Concat(ms[1..]), bad);
      TakeMessageFirst(ms[0], Concat(ms[1..]) + bad);
      RequestsStop(ms[1..], bad);
    }
  }

  /** What neither ends the stream nor begins with a whole record. */
  predicate NoRecord(s: seq<byte>) {
    s != [] && (s[0] != 0 || !TakeMessage(s[1..]).Message?)
  }

  /** A foreign tag or a truncated record ends the relay of replies; every message before it was written. */
  lemma {:induction false} RepliesStop(ms: seq<seq<byte>>, bad: seq<byte>)
    requires AllMessages(ms) && NoRecord(bad)
    ensures RelayReplies(Records(ms) + bad) == Relayed(false, Concat(ms))
  {
    hide TakeMessage;
    if ms == [] {
      assert Records(ms) + bad == bad;
    } else {
      assert IsMessage(ms[0]) && AllMessages(ms[1..]);
      hide IsMessage, AllMessages, NoRecord;
      Assoc(Record(ms[0]), Records(ms[1..]), bad);
      RepliesStop(ms[1..], bad);
      RelayOneReply(ms[0], Records(ms[1..]) + bad);
    }
  }

  // ---- The client's side ----

  /** The status line whose first byte was `line`, and the bytes after it. */
  function TakeLine(line: seq<byte>, s: seq<byte>): (r: (seq<byte>, seq<byte>))
    decreases |s|
  {
    if s == [] then (line, s)
    else if s[0] == LF then (line, s[1..])
    else if MAX_LINE <= |line| + 1 then (line + [s[0]], s[1..])
    else TakeLine(line + [s[0]], s[1..])
  }

  /** Outcome of the auth phase: the status line if any, and what was written to the agent and to the gateway. */
  datatype Phase = Phase(line: Option<seq<byte>>, toAgent: seq<byte>, toGateway: seq<byte>, gateway: seq<byte>)

  function AuthPhase(gw: seq<byte>, agent: seq<byte>): Phase
    decreases |gw|
  {
    if gw == [] then Phase(None, [], [], gw)
    else if gw[0] == TAG then
      match TakeMessage(gw[1..])
      case Message(request, rest) =>
        (match TakeMessage(agent)
         case Message(reply, more) =>
           var p := AuthPhase(rest, more);
           Phase(p.line, request + p.toAgent, Record(reply) + p.toGateway, p.gateway)
         case _ => Phase(None, request, [], rest))
      case _ => Phase(None, [], [], [])
    else
      var (line, rest) := TakeLine([gw[0]], gw[1..]);
      Phase(Some(line), [], [], rest)
  }

  method ReadLine(gw: ByteStream, first: byte) returns (line: seq<byte>)
    modifies gw
    ensures (line, gw.pending) == TakeLine([first], old(gw.pending))
  {
    line := [first];
    while true
      invariant TakeLine(line, gw.pending) == TakeLine([first], old(gw.pending))
      decreases |gw.pending|
    {
      ghost var s := gw.pending;
      var b := gw.Read(1);
      assert b != [] ==> b == [s[0]] && gw.pending == s[1..];
      if b == [] || b[0] == LF {
        return;
      }
      line := line + b;
      if MAX_LINE <= |line| {
        return;
      }
    }
  }

  /** `run_agent_auth_phase`: services requests until the gateway sends its status line. */
  method RunAgentAuthPhase(gw: ByteStream, agent: ByteStream)
    returns (status: Option<seq<byte>>, toAgent: seq<byte>, toGateway: seq<byte>)
    requires gw != agent
    modifies gw, agent
    ensures var p := AuthPhase(old(gw.pending), old(agent.pending));
      && status == p.line && toAgent == p.toAgent && toGateway == p.toGateway
      && (status.Some? ==> gw.pending == p.gateway)
  {
    hide TakeMessage;
    hide TakeLine;
    hide IsMessage;
    toAgent, toGateway := [], [];
    ghost var all := AuthPhase(gw.pending, agent.pending);
    while true
      invariant var p := AuthPhase(gw.pending, agent.pending);
        all == Phase(p.line, toAgent + p.toAgent, toGateway + p.toGateway, p.gateway)
      decreases |gw.pending|
    {
      ghost var s := gw.pending;
      assert toAgent + [] == toAgent && toGateway + [] == toGateway;
      var tag := gw.Read(1);
      assert tag != [] ==> tag[0] == s[0] && gw.pending == s[1..];
      if tag == [] {
        return None, toAgent, toGateway;
      }
      if tag[0] != TAG {
        var line := ReadLine(gw, tag[0]);
        return Some(line), toAgent, toGateway;
      }
      var request := ReadAgentMessage(gw);
      if !request.Message? {
        return None, toAgent, toGateway;
      }
      var reply := ReadAgentMessage(agent);
      if !reply.Message? {
        return None, toAgent + request.msg, toGateway;
      }
      ghost var p := AuthPhase(gw.pending, agent.pending);
      Assoc(toAgent, request.msg, p.toAgent);
      Assoc(toGateway, Record(reply.msg), p.toGateway);
      assert toGateway + [TAG] + reply.msg == toGateway + Record(reply.msg);
      toAgent := toAgent + request.msg;
      toGateway := toGateway + [TAG] + reply.msg;
    }
  }

  /** A line the client can tell from a record and read to its end. */
  predicate IsStatusLine(line: seq<byte>) {
    0 < |line| < MAX_LINE && line[0] != TAG && LF !in line
  }

  lemma {:induction false} TakeWholeLine(read: seq<byte>, left: seq<byte>, rest: seq<byte>)
    requires |read + left| < MAX_LINE && LF !in left
    ensures TakeLine(read, left + [LF] + rest) == (read + left, rest)
    decreases |left|
  {
    var s := left + [LF] + rest;
    if left == [] {
      assert s[1..] == rest && read + left == read;
    } else {
      assert s[0] == left[0] && s[1..] == left[1..] + [LF] + rest;
      TakeWholeLine(read + [left[0]], left[1..], rest);
      assert read + [left[0]] + left[1..] == read + left;
    }
  }

  lemma ServeOne(q: seq<byte>, gw: seq<byte>, r: seq<byte>, agent: seq<byte>)
    requires IsMessage(q) && IsMessage(r)
    ensures var p := AuthPhase(gw, agent);
      AuthPhase(Record(q) + gw, r + agent) == Phase(p.line, q + p.toAgent, Record(r) + p.toGateway, p.gateway)
  {
    hide TakeMessage;
    hide TakeLine;
    hide IsMessage;
    assert (Record(q) + gw)[1..] == q + gw;
    TakeMessageFirst(q, gw);
    TakeMessageFirst(r, agent);
  }

  /**
   The client hands the agent exactly the requests, hands the gateway exactly the replies, returns
   the status line, and leaves every byte after its line end in the stream.
   */
  lemma {:induction false} ClientServesPhase(requests: seq<seq<byte>>, replies: seq<seq<byte>>, line: seq<byte>,
                                              pty: seq<byte>, extra: seq<byte>)
    requires AllMessages(requests) && AllMessages(replies) && |requests| == |replies| && IsStatusLine(line)
    ensures AuthPhase(Records(requests) + (line + [LF] + pty), Concat(replies) + extra) ==
            Phase(Some(line), Concat(requests), Records(replies), pty)
  {
    var tail := line + [LF] + pty;
    if requests == [] {
      assert Records(requests) + tail == tail;
      assert tail[1..] == line[1..] + [LF] + pty && [line[0]] + line[1..] == line;
      TakeWholeLine([line[0]], line[1..], pty);
    } else {
      hide AuthPhase, IsMessage;
      var q, r := requests[0], replies[0];
      assert IsMessage(q) && IsMessage(r) && AllMessages(requests[1..]) && AllMessages(replies[1..]);
      Assoc(Record(q), Records(requests[1..]), tail);
      Assoc(r, Concat(replies[1..]), extra);
      ServeOne(q, Records(requests[1..]) + tail, r, Concat(replies[1..]) + extra);
      ClientServesPhase(requests[1..], replies[1..], line, pty, extra);
    }
  }

  lemma ServedOne(q: seq<byte>, requests: seq<seq<byte>>, gw: seq<byte>, r: seq<byte>, replies: seq<seq<byte>>, agent: seq<byte>)
    requires IsMessage(q) && IsMessage(r)
    ensures var p := AuthPhase(Records(requests) + gw, Concat(replies) + agent);
      AuthPhase(Records([q] + requests) + gw, Concat([r] + replies) + agent) ==
      Phase(p.line, q + p.toAgent, Record(r) + p.toGateway, p.gateway)
  {
    hide AuthPhase, IsMessage;
    assert ([q] + requests)[1..] == requests && ([r] + replies)[1..] == replies;
    Assoc(Record(q), Records(requests), gw);
    Assoc(r, Concat(replies), agent);
    ServeOne(q, Records(requests) + gw, r, Concat(replies) + agent);
  }

  lemma FirstAndRest(ms: seq<seq<byte>>)
    requires ms != [] && AllMessages(ms)
    ensures IsMessage(ms[0]) && AllMessages(ms[1..]) && ms == [ms[0]] + ms[1..]
    ensures Concat(ms) == ms[0] + Concat(ms[1..]) && Records(ms) == Record(ms[0]) + Records(ms[1..])
  {}

  /** Without a whole record or a status line after the requests served, the phase fails. */
  lemma {:induction false} PhaseNeedsLine(requests: seq<seq<byte>>, replies: seq<seq<byte>>, bad: seq<byte>, extra: seq<byte>)
    requires AllMessages(requests) && AllMessages(replies) && |requests| == |replies|
    requires bad == [] || (bad[0] == 0 && NoRecord(bad))
    ensures var p := AuthPhase(Records(requests) + bad, Concat(replies) + extra);
      p.line.None? && p.toAgent == Concat(requests) && p.toGateway == Records(replies)
  {
    if requests == [] {
      hide TakeMessage;
      assert Records(requests) + bad == bad;
    } else {
      hide AuthPhase, IsMessage, NoRecord;
      FirstAndRest(requests);
      FirstAndRest(replies);
      ServedOne(requests[0], requests[1..], bad, replies[0], replies[1..], extra);
      PhaseNeedsLine(requests[1..], replies[1..], bad, extra);
    }
  }

  /** When the agent stops answering the phase fails; the agent has the open request, the gateway every reply before it. */
  lemma {:induction false} PhaseNeedsReplies(requests: seq<seq<byte>>, replies: seq<seq<byte>>, gw: seq<byte>, bad: seq<byte>)
    requires AllMessages(requests) && AllMessages(replies) && |replies| < |requests| && !TakeMessage(bad).Message?
    ensures var p := AuthPhase(Records(requests) + gw, Concat(replies) + bad);
      p.line.None? && p.toAgent == Concat(requests[..|replies| + 1]) && p.toGateway == Records(replies)
  {
    FirstAndRest(requests);
    var q, more := requests[0], requests[1..];
    assert requests[..|replies| + 1] == [q] + more[..|replies|] && (requests[..|replies| + 1])[1..] == more[..|replies|];
    if replies == [] {
      Assoc(Record(q), Records(more), gw);
      assert (Record(q) + (Records(more) + gw))[1..] == q + (Records(more) + gw);
      TakeMessageFirst(q, Records(more) + gw);
      hide TakeMessage, IsMessage;
      assert Concat(replies) + bad == bad && Concat([q]) == q + Concat([]) == q;
    } else {
      hide AuthPhase, IsMessage, TakeMessage;
      FirstAndRest(replies);
      ServedOne(q, more, gw, replies[0], replies[1..], bad);
      PhaseNeedsReplies(more, replies[1..], gw, bad);
    }
  }

  lemma {:induction false} TakeLongLine(read: seq<byte>, left: seq<byte>, rest: seq<byte>)
    requires |read| < |read + left| <= 256 && LF !in left
    ensures |read + left| == 256 ==> TakeLine(read, left + rest) == (read + left, rest)
    ensures |read + left| < 256 ==> TakeLine(read, left) == (read + left, [])
    decreases |left|
  {
    var s := left + rest;
    assert s[0] == left[0] && s[1..] == left[1..] + rest && read + [left[0]] + left[1..] == read + left;
    if left[1..] == [] {
      assert left == [left[0]] && [] + rest == rest;
    } else {
      TakeLongLine(read + [left[0]], left[1..], rest);
    }
  }

  /** A status line is cut after 256 bytes; one that the end of the stream cuts short counts as it is. */
  lemma LineIsCut(line: seq<byte>, rest: seq<byte>, agent: seq<byte>)
    requires 2 <= |line| <= 256 && line[0] != 0 && LF !in line
    ensures |line| == 256 ==> AuthPhase(line + rest, agent) == Phase(Some(line), [], [], rest)
    ensures |line| < 256 ==> AuthPhase(line, agent) == Phase(Some(line), [], [], [])
  {
    assert (line + rest)[1..] == line[1..] + rest && [line[0]] + line[1..] == line;
    TakeLongLine([line[0]], line[1..], rest);
    hide TakeLine;
  }
}
