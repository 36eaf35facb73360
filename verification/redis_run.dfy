/** Every run of a Redis connection: which reply settles which command. */
module RedisRun {
  import opened Buffers
  import opened Resp
  import opened RespWire
  import opened RedisClient

  /** What can happen on an open connection; a chunk is any number of bytes, cut anywhere. */
  datatype Event = Wrote(commands: seq<Command>) | Data(chunk: seq<byte>) | Timeout(id: nat)

  function Step(s: State, e: Event): State {
    match e
    case Wrote(commands) => WriteStep(s, commands)
    case Data(chunk) => DataStep(s, chunk)
    case Timeout(id) => TimeoutStep(s, id)
  }

  function Run(s: State, events: seq<Event>): State {
    if |events| == 0 then s else Step(Run(s, Init(events)), Last(events))
  }

  function Init<T>(s: seq<T>): seq<T>
    requires |s| > 0
  {
    s[..|s| - 1]
  }

  function Last<T>(s: seq<T>): T
    requires |s| > 0
  {
    s[|s| - 1]
  }

  function Written(events: seq<Event>): seq<Command> {
    if |events| == 0 then [] else
    Written(Init(events)) + (if Last(events).Wrote? then Last(events).commands else [])
  }

  function Received(events: seq<Event>): seq<byte> {
    if |events| == 0 then [] else
    Received(Init(events)) + (if Last(events).Data? then Last(events).chunk else [])
  }

  function Replies(events: seq<Event>): seq<Answer> {
    Drain(Received(events)).answers
  }

  // ----- Which reply each command gets -----

  /** answered[i] is the reply the i-th command got, of the `replies` that came so far. */
  datatype Match = Match(answered: seq<nat>, replies: nat)

  /** The next reply goes to the first command not yet answered, if one is written. */
  function OneReply(m: Match, written: nat): Match {
    Match(if |m.answered| < written then m.answered + [m.replies] else m.answered, m.replies + 1)
  }

  function MoreReplies(m: Match, written: nat, replies: nat): (r: Match)
    requires m.replies <= replies
    ensures r.replies == replies
    decreases replies - m.replies
  {
    if m.replies == replies then m else MoreReplies(OneReply(m, written), written, replies)
  }

  lemma {:induction false} RepliesGrow(events: seq<Event>)
    requires |events| > 0
    ensures |Replies(Init(events))| <= |Replies(events)|
  {
    var more := if Last(events).Data? then Last(events).chunk else [];
    DrainChunks(Received(Init(events)), more);
  }

  function Matching(events: seq<Event>): (m: Match)
    ensures m.replies == |Replies(events)|
  {
    if |events| == 0 then Match([], 0) else
    RepliesGrow(events);
    MoreReplies(Matching(Init(events)), |Written(Init(events))|, |Replies(events)|)
  }

  // ----- What the client holds after any run -----

  /** An open connection on which nothing was written or read yet. */
  ghost predicate Fresh(s: State) {
    && s.connected && s.buffer == [] && s.pending == [] && s.sent == []
    && forall id :: id in s.outcomes <==> 0 <= id < s.issued
  }

  predicate SettledBy(o: Outcome, a: Answer) {
    o == Answered(a) || o == TimedOut
  }

  /** Command `first + i` is settled by reply answered[i], or was timed out; the others wait in order. */
  ghost predicate Settled(outcomes: map<nat, Outcome>, first: nat, answered: seq<nat>, replies: seq<Answer>, written: nat) {
    && |answered| <= written
    && (forall i :: 0 <= i < |answered| ==> answered[i] < |replies|)
    && (forall id :: first <= id < first + |answered| ==>
          id in outcomes && SettledBy(outcomes[id], replies[answered[id - first]]))
    && (forall id :: id in outcomes && id >= first + |answered| ==> id < first + written && outcomes[id] == TimedOut)
  }

  predicate Queued(s: State, first: nat, answered: nat, written: nat)
    requires answered <= written
  {
    s.issued == first + written && s.pending == Numbers(first + answered, written - answered)
  }

  /** A promise is timed out only by its own timeout, and what was settled before stays as it was. */
  ghost predicate Kept(s: State, start: State, events: seq<Event>) {
    && (forall id :: id in s.outcomes && id >= start.issued && s.outcomes[id] == TimedOut ==> Timeout(id) in events)
    && (forall id :: id in start.outcomes ==> id in s.outcomes && s.outcomes[id] == start.outcomes[id])
  }

  ghost predicate InStep(s: State, first: nat, m: Match, replies: seq<Answer>, written: nat) {
    && m.replies == |replies| && s.connected
    && Settled(s.outcomes, first, m.answered, replies, written)
    && Queued(s, first, |m.answered|, written)
  }

  lemma ReplySettles(outcomes: map<nat, Outcome>, first: nat, answered: seq<nat>, replies: seq<Answer>, written: nat, a: Answer)
    requires Settled(outcomes, first, answered, replies, written)
    ensures Settled(outcomes, first, answered, replies + [a], written)
    ensures |answered| < written ==>
      Settled(Settle(outcomes, first + |answered|, Answered(a)), first, answered + [|replies|], replies + [a], written)
  {
    var all := replies + [a];
    assert all[|replies|] == a && forall i :: 0 <= i < |replies| ==> all[i] == replies[i];
  }

  lemma NextWaiter(first: nat, count: nat)
    requires count > 0
    ensures Numbers(first, count)[0] == first && Numbers(first, count)[1..] == Numbers(first + 1, count - 1)
  {
  }

  lemma ReplyKeeps(s: State, first: nat, m: Match, replies: seq<Answer>, written: nat, a: Answer)
    requires InStep(s, first, m, replies, written)
    ensures InStep(ReplyStep(s, a), first, OneReply(m, written), replies + [a], written)
  {
    hide Settled, Settle, Numbers;
    var k := |m.answered|;
    WithinWritten(s.outcomes, first, m.answered, replies, written);
    ReplySettles(s.outcomes, first, m.answered, replies, written, a);
    if k < written { NextWaiter(first + k, written - k); }
  }

  lemma WithinWritten(outcomes: map<nat, Outcome>, first: nat, answered: seq<nat>, replies: seq<Answer>, written: nat)
    requires Settled(outcomes, first, answered, replies, written)
    ensures |answered| <= written
  {
  }

  lemma BufferKeeps(s: State, buffer: seq<byte>, first: nat, m: Match, replies: seq<Answer>, written: nat)
    requires InStep(s, first, m, replies, written)
    ensures InStep(s.(buffer := buffer), first, m, replies, written)
  {
  }

  /** Draining the buffer takes its complete replies in order. */
  lemma {:induction false} DrainKeeps(s: State, first: nat, m: Match, replies: seq<Answer>, written: nat)
    requires InStep(s, first, m, replies, written)
    ensures var d := Drain(s.buffer);
            && InStep(DrainStep(s), first, MoreReplies(m, written, m.replies + |d.answers|), replies + d.answers, written)
            && DrainStep(s).buffer == d.rest && DrainStep(s).sent == s.sent
    decreases |s.buffer|
  {
    hide InStep, OneReply, ParseAt;
    var p := ParseAt(s.buffer, 0);
    if p.Parsed? {
      var rest := s.buffer[p.next..];
      var t := s.(buffer := rest);
      BufferKeeps(s, rest, first, m, replies, written);
      ReplyKeeps(t, first, m, replies, written, p.answer);
      MatchCounts(m, written);
      DrainKeeps(ReplyStep(t, p.answer), first, OneReply(m, written), replies + [p.answer], written);
      var d := Drain(rest);
      assert replies + ([p.answer] + d.answers) == replies + [p.answer] + d.answers;
    } else {
      assert replies + [] == replies;
    }
  }

  lemma MatchCounts(m: Match, written: nat)
    ensures OneReply(m, written).replies == m.replies + 1
  {
  }

  /** Draining settles promises with answers, each at most once. */
  lemma {:induction false} DrainSettles(s: State)
    ensures forall id :: id in s.outcomes ==> id in DrainStep(s).outcomes && DrainStep(s).outcomes[id] == s.outcomes[id]
    ensures forall id :: id in DrainStep(s).outcomes && id !in s.outcomes ==> DrainStep(s).outcomes[id].Answered?
    decreases |s.buffer|
  {
    hide ParseAt;
    var p := ParseAt(s.buffer, 0);
    if p.Parsed? {
      DrainSettles(ReplyStep(s.(buffer := s.buffer[p.next..]), p.answer));
    }
  }

  // ----- Every run -----

  ghost predicate Reached(s: State, start: State, events: seq<Event>) {
    && InStep(s, start.issued, Matching(events), Replies(events), |Written(events)|)
    && s.buffer == Drain(Received(events)).rest
    && s.sent == EncodeAll(Written(events))
    && Kept(s, start, events)
  }

  lemma FreshReached(start: State)
    requires Fresh(start)
    ensures Reached(start, start, [])
  {
    assert ParseAt([], 0).Incomplete?;
    assert start.pending == Numbers(start.issued + 0, 0);
  }

  lemma EncodeAllLast(a: seq<Command>, c: Command)
    ensures EncodeAll(a + [c]) == EncodeAll(a) + Encode(c)
  {
    hide Encode;
    assert (a + [c])[..|a|] == a;
  }

  lemma {:induction false} EncodeAllAppends(a: seq<Command>, b: seq<Command>)
    ensures EncodeAll(a + b) == EncodeAll(a) + EncodeAll(b)
  {
    hide Encode;
    if |b| == 0 {
      assert a + b == a;
      assert EncodeAll(a) + [] == EncodeAll(a);
    } else {
      var init, last := Init(b), Last(b);
      EncodeAllAppends(a, init);
      EncodeAllLast(a + init, last);
      assert a + b == a + init + [last];
      EncodeAllLast(init, last);
      assert b == init + [last];
      assert EncodeAll(a) + EncodeAll(init) + Encode(last) == EncodeAll(a) + (EncodeAll(init) + Encode(last));
    }
  }

  lemma WriteKeeps(s: State, first: nat, m: Match, replies: seq<Answer>, written: nat, commands: seq<Command>)
    requires InStep(s, first, m, replies, written)
    ensures InStep(WriteStep(s, commands), first, m, replies, written + |commands|)
  {
    var t := WriteStep(s, commands);
    assert t.pending == Numbers(first + |m.answered|, written + |commands| - |m.answered|);
  }

  lemma TimeoutKeeps(s: State, first: nat, m: Match, replies: seq<Answer>, written: nat, id: nat)
    requires InStep(s, first, m, replies, written)
    ensures InStep(TimeoutStep(s, id), first, m, replies, written)
  {
  }

  lemma WroteReached(s: State, start: State, events: seq<Event>)
    requires |events| > 0 && Last(events).Wrote? && Reached(s, start, Init(events))
    ensures Reached(Step(s, Last(events)), start, events)
  {
    hide InStep, EncodeAll, Drain;
    var commands := Last(events).commands;
    WriteKeeps(s, start.issued, Matching(Init(events)), Replies(Init(events)), |Written(Init(events))|, commands);
    EncodeAllAppends(Written(Init(events)), commands);
    assert Received(events) == Received(Init(events));
    assert Matching(events) == Matching(Init(events));
  }

  lemma TimeoutReached(s: State, start: State, events: seq<Event>)
    requires |events| > 0 && Last(events).Timeout? && Reached(s, start, Init(events))
    ensures Reached(Step(s, Last(events)), start, events)
  {
    hide InStep, EncodeAll, Drain;
    TimeoutKeeps(s, start.issued, Matching(Init(events)), Replies(Init(events)), |Written(Init(events))|, Last(events).id);
    assert Received(events) == Received(Init(events)) && Written(events) == Written(Init(events));
    assert Matching(events) == Matching(Init(events));
    assert Last(events) in events;
  }

  lemma DataReached(s: State, start: State, events: seq<Event>)
    requires |events| > 0 && Last(events).Data? && Reached(s, start, Init(events))
    ensures Reached(Step(s, Last(events)), start, events)
  {
    hide InStep, EncodeAll, Drain, DrainStep, MoreReplies;
    var chunk := Last(events).chunk;
    var before, m, written := Replies(Init(events)), Matching(Init(events)), |Written(Init(events))|;
    DrainChunks(Received(Init(events)), chunk);
    var t := s.(buffer := s.buffer + chunk);
    BufferKeeps(s, t.buffer, start.issued, m, before, written);
    DrainKeeps(t, start.issued, m, before, written);
    DrainSettles(t);
    assert Written(events) == Written(Init(events));
    RepliesGrow(events);
    InStepReplies(t, start.issued, m, before, written);
    assert Matching(events) == MoreReplies(m, written, |Replies(events)|);
  }

  lemma InStepReplies(s: State, first: nat, m: Match, replies: seq<Answer>, written: nat)
    requires InStep(s, first, m, replies, written)
    ensures m.replies == |replies|
  {
  }

  /** Whatever the chunks, timeouts and writes, the client's state is the one the matching says. */
  lemma {:induction false} RunReaches(start: State, events: seq<Event>)
    requires Fresh(start)
    ensures Reached(Run(start, events), start, events)
  {
    hide Reached;
    if |events| == 0 {
      FreshReached(start);
      assert events == [];
    } else {
      RunReaches(start, Init(events));
      var s := Run(start, Init(events));
      match Last(events)
      case Wrote(_) => WroteReached(s, start, events);
      case Data(_) => DataReached(s, start, events);
      case Timeout(_) => TimeoutReached(s, start, events);
    }
  }

  // ----- When the i-th reply is the i-th command's -----

  /** At no time had more replies come than commands been written. */
  predicate Solicited(events: seq<Event>) {
    |Replies(events)| <= |Written(events)| && (|events| > 0 ==> Solicited(Init(events)))
  }

  predicate InOrder(m: Match) {
    m.answered == Numbers(0, m.replies)
  }

  lemma {:induction false} MoreInOrder(m: Match, written: nat, replies: nat)
    requires m.replies <= replies && |m.answered| <= m.replies && (|m.answered| == m.replies ==> InOrder(m))
    ensures var r := MoreReplies(m, written, replies);
            && |r.answered| <= r.replies
            && (|r.answered| == r.replies ==> InOrder(r))
            && (|r.answered| == r.replies <==> |m.answered| == m.replies && (m.replies == replies || replies <= written))
    decreases replies - m.replies
  {
    if m.replies < replies {
      MoreInOrder(OneReply(m, written), written, replies);
    }
  }

  lemma {:induction false} NoneDropped(events: seq<Event>)
    ensures var m := Matching(events);
            && |m.answered| <= m.replies && (|m.answered| == m.replies ==> InOrder(m))
            && (|m.answered| == m.replies <==> Solicited(events))
  {
    hide Drain;
    if |events| == 0 {
      EmptyDrains();
    } else {
      RepliesGrow(events);
      NoneDropped(Init(events));
      MoreInOrder(Matching(Init(events)), |Written(Init(events))|, |Replies(events)|);
      if !Last(events).Data? { assert Received(events) == Received(Init(events)); }
    }
  }

  lemma EmptyDrains()
    ensures Drain([]) == Drained([], [])
  {
  }

  /** In every run whose replies are all solicited, whatever the chunks and timeouts, the i-th reply
      settles the i-th command, unless its promise had timed out; a timed-out command still takes its
      own reply, so those after it keep theirs; and the rest wait in order. */
  lemma IthReplySettlesIthCommand(start: State, events: seq<Event>)
    requires Fresh(start) && Solicited(events)
    ensures var s, first, replies, written := Run(start, events), start.issued, Replies(events), |Written(events)|;
            && |replies| <= written
            && s.pending == Numbers(first + |replies|, written - |replies|)
            && s.sent == EncodeAll(Written(events))
            && (forall id :: first <= id < first + |replies| ==>
                  && id in s.outcomes
                  && SettledBy(s.outcomes[id], replies[id - first])
                  && (s.outcomes[id] == TimedOut ==> Timeout(id) in events))
  {
    hide *;
    RunReaches(start, events);
    NoneDropped(events);
    ReachedMeans(Run(start, events), start, events);
    InOrderMeans(Matching(events));
    SolicitedNow(events);
    OwnReplies(Run(start, events).outcomes, start.issued, Replies(events), |Written(events)|);
    TimedOutOnly(Run(start, events), start, events);
  }

  lemma ReachedMeans(s: State, start: State, events: seq<Event>)
    requires Reached(s, start, events)
    ensures var m, written := Matching(events), |Written(events)|;
            && |m.answered| <= written && m.replies == |Replies(events)|
            && Settled(s.outcomes, start.issued, m.answered, Replies(events), written)
            && s.issued == start.issued + written
            && s.pending == Numbers(start.issued + |m.answered|, written - |m.answered|)
            && s.sent == EncodeAll(Written(events)) && Kept(s, start, events)
  {
    hide Matching, Drain, EncodeAll, Written, Settled, Kept, Numbers;
    SettledMeans(s.outcomes, start.issued, Matching(events).answered, Replies(events), |Written(events)|);
  }

  lemma SettledMeans(outcomes: map<nat, Outcome>, first: nat, answered: seq<nat>, replies: seq<Answer>, written: nat)
    requires Settled(outcomes, first, answered, replies, written)
    ensures |answered| <= written
  {
  }

  lemma InOrderMeans(m: Match)
    ensures InOrder(m) ==> m.answered == Numbers(0, m.replies)
  {
  }

  lemma SolicitedNow(events: seq<Event>)
    requires Solicited(events)
    ensures |Replies(events)| <= |Written(events)|
  {
  }

  lemma OwnReplies(outcomes: map<nat, Outcome>, first: nat, replies: seq<Answer>, written: nat)
    requires Settled(outcomes, first, Numbers(0, |replies|), replies, written)
    ensures forall id :: first <= id < first + |replies| ==> id in outcomes && SettledBy(outcomes[id], replies[id - first])
  {
  }

  lemma TimedOutOnly(s: State, start: State, events: seq<Event>)
    requires Kept(s, start, events)
    ensures forall id :: id in s.outcomes && id >= start.issued && s.outcomes[id] == TimedOut ==> Timeout(id) in events
  {
  }

  /** The next reply settles its own command exactly when none was unsolicited before. */
  lemma NextIsItsOwn(events: seq<Event>, chunk: seq<byte>)
    requires |Matching(events).answered| < |Written(events)|
    requires |Replies(events + [Data(chunk)])| == |Replies(events)| + 1
    ensures var a := Matching(events + [Data(chunk)]).answered;
            |a| == |Matching(events).answered| + 1 && (a[|a| - 1] == |a| - 1 <==> Solicited(events))
  {
    hide *;
    NoneDropped(events);
    MatchingAfter(events, Data(chunk));
    OneMoreReply(Matching(events), |Written(events)|);
    AnsweredNext(Matching(events), |Written(events)|);
  }

  lemma MatchingAfter(events: seq<Event>, e: Event)
    ensures |Replies(events)| <= |Replies(events + [e])|
    ensures Matching(events + [e]) == MoreReplies(Matching(events), |Written(events)|, |Replies(events + [e])|)
  {
    hide Replies, Written, MoreReplies;
    var all := events + [e];
    assert Init(all) == events;
    RepliesGrow(all);
  }

  lemma OneMoreReply(m: Match, written: nat)
    ensures MoreReplies(m, written, m.replies + 1) == OneReply(m, written)
  {
    MatchCounts(m, written);
    hide OneReply;
    var n := OneReply(m, written);
    assert MoreReplies(n, written, n.replies) == n;
  }

  lemma AnsweredNext(m: Match, written: nat)
    requires |m.answered| < written
    ensures OneReply(m, written).answered == m.answered + [m.replies]
  {
  }

  /** +A before anything is written, then a command, then +B. */
  function EarlyReply(): seq<Event> {
    [Data([STATUS, 0x41, 13, 10]), Wrote([[[0x50]]]), Data([STATUS, 0x42, 13, 10])]
  }

  lemma EarlyParts()
    ensures var e := EarlyReply();
            && Init(e) == e[..2] && Init(e[..2]) == e[..1] && Init(e[..1]) == []
            && Received(e[..1]) == [STATUS, 0x41, 13, 10] && Received(e[..2]) == Received(e[..1])
            && Received(e) == Received(e[..1]) + [STATUS, 0x42, 13, 10]
            && Written(e[..1]) == [] && |Written(e[..2])| == 1 && |Written(e)| == 1
  {
    var e := EarlyReply();
    assert Init(e[..2]) == e[..1] && Init(e[..1]) == [] && Init(e) == e[..2];
  }

  lemma EarlyMatching()
    ensures !Solicited(EarlyReply()) && Matching(EarlyReply()).answered == [1]
    ensures Replies(EarlyReply()) == [Value(Str([0x41])), Value(Str([0x42]))]
  {
    hide Drain, Received;
    var e := EarlyReply();
    EarlyParts();
    StreamOfTwo([STATUS, 0x41, 13, 10], [STATUS, 0x42, 13, 10]);
    EmptyDrains();
    assert Matching([]) == Match([], 0) && Written([]) == [];
    assert |Replies(e[..1])| == 1 && |Replies(e[..2])| == 1 && |Replies(e)| == 2;
    assert Matching(e[..1]) == MoreReplies(Match([], 0), 0, 1) == MoreReplies(OneReply(Match([], 0), 0), 0, 1) == Match([], 1);
    assert Matching(e[..2]) == Match([], 1);
    assert Matching(e) == MoreReplies(Match([], 1), 1, 2) == MoreReplies(Match([1], 2), 1, 2);
    assert !Solicited(e[..1]);
  }

  /** A reply that came before anything was written takes the place of the first command's, which the second
      reply then settles. */
  lemma UnsolicitedReply(start: State)
    requires Fresh(start)
    ensures !Solicited(EarlyReply())
    ensures Replies(EarlyReply()) == [Value(Str([0x41])), Value(Str([0x42]))]
    ensures var s := Run(start, EarlyReply());
            start.issued in s.outcomes && s.outcomes[start.issued] == Answered(Replies(EarlyReply())[1])
  {
    hide *;
    EarlyMatching();
    var s := Run(start, EarlyReply());
    RunReaches(start, EarlyReply());
    ReachedMeans(s, start, EarlyReply());
    FirstSettled(s.outcomes, start.issued, Replies(EarlyReply()), |Written(EarlyReply())|);
    TimedOutOnly(s, start, EarlyReply());
    NoTimeouts(start.issued);
  }

  lemma FirstSettled(outcomes: map<nat, Outcome>, first: nat, replies: seq<Answer>, written: nat)
    requires Settled(outcomes, first, [1], replies, written)
    ensures |replies| > 1 && first in outcomes && (outcomes[first] == Answered(replies[1]) || outcomes[first] == TimedOut)
  {
  }

  lemma NoTimeouts(id: nat)
    ensures Timeout(id) !in EarlyReply()
  {
  }

  lemma StreamOfTwo(a: seq<byte>, b: seq<byte>)
    requires a == [STATUS, 0x41, 13, 10] && b == [STATUS, 0x42, 13, 10]
    ensures |Drain(a).answers| == 1 && Drain(a + b).answers == [Value(Str([0x41])), Value(Str([0x42]))]
  {
    hide Drain;
    EmptyDrains();
    var one, two := [Status([0x41])], [Status([0x41]), Status([0x42])];
    assert Print(Status([0x41])) == a && Print(Status([0x42])) == b;
    assert two[1..] == [Status([0x42])];
    assert PrintAll(one) + [] == a && PrintAll(two) + [] == a + b;
    DrainPrinted(one, []);
    DrainPrinted(two, []);
    assert Meanings(two) == [Value(Str([0x41])), Value(Str([0x42]))];
  }

  // ----- The server's side -----

  /** When the bytes received are the beginning of what a server printed, the replies are the beginning of
      its replies, and all of them once the bytes are. */
  lemma RepliesAreThePrinted(events: seq<Event>, ws: seq<Wire>, more: seq<byte>)
    requires AllWellFormed(ws) && Received(events) + more == PrintAll(ws)
    ensures Replies(events) <= Meanings(ws) && (more == [] ==> Replies(events) == Meanings(ws))
  {
    hide Drain;
    DrainPrinted(ws, []);
    EmptyDrains();
    assert PrintAll(ws) + [] == PrintAll(ws);
    if more == [] { assert Received(events) + [] == Received(events) == PrintAll(ws); }
    DrainChunks(Received(events), more);
    assert Meanings(ws) + [] == Meanings(ws);
    assert Drain(PrintAll(ws)).answers == Meanings(ws);
  }

  /** Cut anywhere, a server's stream leaves no malformed length. */
  lemma NeverMalformed(b: seq<byte>, ws: seq<Wire>, more: seq<byte>)
    requires AllWellFormed(ws) && b + more == PrintAll(ws)
    ensures ParseAt(Drain(b).rest, 0).Incomplete?
  {
    hide ParseAt, PrintAll, Meanings;
    var rest := Drain(b).rest;
    assert PrintAll(ws) + [] == PrintAll(ws);
    DrainPrinted(ws, []);
    EmptyDrains();
    DrainChunks(b, more);
    if !ParseAt(rest, 0).Incomplete? {
      ParseStable(rest, more, 0);
      SomethingParsed(rest);
    }
  }

  lemma SomethingParsed(b: seq<byte>)
    requires !ParseAt(b, 0).Incomplete?
    ensures b != []
  {
  }

  /** Against a server that sends well-formed replies, in every run whose replies are all solicited, whatever the
      chunks and timeouts: the i-th reply printed settles the i-th command, unless its promise had timed out; the
      rest of the commands wait in order; and the buffer never holds more than the beginning of one reply. */
  lemma ServedInOrder(start: State, events: seq<Event>, ws: seq<Wire>, more: seq<byte>)
    requires Fresh(start) && Solicited(events)
    requires AllWellFormed(ws) && Received(events) + more == PrintAll(ws)
    ensures var s, first, k := Run(start, events), start.issued, |Replies(events)|;
            && k <= |ws| && (more == [] ==> k == |ws|)
            && s.pending == Numbers(first + k, |Written(events)| - k)
            && (forall id :: first <= id < first + k ==>
                  && id in s.outcomes
                  && SettledBy(s.outcomes[id], Meanings(ws)[id - first])
                  && (s.outcomes[id] == TimedOut ==> Timeout(id) in events))
            && ParseAt(s.buffer, 0).Incomplete?
  {
    hide *;
    IthReplySettlesIthCommand(start, events);
    RepliesAreThePrinted(events, ws, more);
    RunReaches(start, events);
    BufferIs(Run(start, events), start, events);
    NeverMalformed(Received(events), ws, more);
    MeaningsCount(ws);
    SamePrefix(Replies(events), Meanings(ws));
  }

  lemma BufferIs(s: State, start: State, events: seq<Event>)
    requires Reached(s, start, events)
    ensures s.buffer == Drain(Received(events)).rest
  {
    hide InStep, Matching, Drain, Received, Kept;
  }

  lemma MeaningsCount(ws: seq<Wire>)
    ensures |Meanings(ws)| == |ws|
  {
  }

  lemma SamePrefix<T>(a: seq<T>, b: seq<T>)
    requires a <= b
    ensures |a| <= |b| && forall i :: 0 <= i < |a| ==> a[i] == b[i]
  {
  }

  function Requests(commands: seq<Command>): (ws: seq<Wire>)
    ensures |ws| == |commands|
  {
    seq(|commands|, i requires 0 <= i < |commands| => Array(Bulks(commands[i])))
  }

  lemma {:induction false} EncodeAllPrints(commands: seq<Command>)
    ensures EncodeAll(commands) == PrintAll(Requests(commands)) && AllWellFormed(Requests(commands))
  {
    if |commands| > 0 {
      var init, last := Init(commands), Last(commands);
      EncodeAllPrints(init);
      EncodePrints(last);
      BulksMean(last);
      assert Requests(commands) == Requests(init) + [Array(Bulks(last))];
      PrintAppend(Requests(init), Array(Bulks(last)));
      AppendWellFormed(Requests(init), Array(Bulks(last)));
    }
  }

  lemma {:induction false} AppendWellFormed(ws: seq<Wire>, w: Wire)
    requires AllWellFormed(ws) && WellFormed(w)
    ensures AllWellFormed(ws + [w])
    decreases ws
  {
    if |ws| > 0 {
      assert (ws + [w])[1..] == ws[1..] + [w];
      AppendWellFormed(ws[1..], w);
    } else {
      assert ws + [w] == [w];
    }
  }

  lemma {:induction false} MeaningsAt(ws: seq<Wire>, i: nat)
    requires i < |ws|
    ensures Meanings(ws)[i] == Meaning(ws[i])
    decreases ws
  {
    if i > 0 { MeaningsAt(ws[1..], i - 1); }
  }

  /** What the socket was given parses, in order, to exactly the commands written. */
  lemma CommandsArrive(commands: seq<Command>)
    ensures var d := Drain(EncodeAll(commands));
            && d.rest == [] && |d.answers| == |commands|
            && forall i :: 0 <= i < |commands| ==> d.answers[i] == Value(Arr(Strings(commands[i])))
  {
    hide Drain, EncodeAll;
    var ws := Requests(commands);
    EncodeAllPrints(commands);
    DrainPrinted(ws, []);
    EmptyDrains();
    assert PrintAll(ws) + [] == PrintAll(ws);
    forall i | 0 <= i < |commands| ensures Drain(EncodeAll(commands)).answers[i] == Value(Arr(Strings(commands[i]))) {
      MeaningsAt(ws, i);
      BulksMean(commands[i]);
    }
  }

  // ----- The end of a connection -----

  lemma {:induction false} SettleAllSettles(outcomes: map<nat, Outcome>, ids: seq<nat>)
    ensures var r := SettleAll(outcomes, ids, Closed);
            && (forall id :: id in r <==> id in outcomes || id in ids)
            && (forall id :: id in r ==> r[id] == if id in outcomes then outcomes[id] else Closed)
    decreases |ids|
  {
    if |ids| > 0 {
      SettleAllSettles(Settle(outcomes, ids[0], Closed), ids[1..]);
      assert ids == [ids[0]] + ids[1..];
    }
  }

  /** When a connection is lost after any run, every command in flight is settled as closed unless it was
      already, nothing of its stream is kept, and the next connection starts fresh. */
  lemma FailSettlesAll(start: State, events: seq<Event>)
    requires Fresh(start)
    ensures var s, t := Run(start, events), FailStep(Run(start, events));
            && Fresh(Connect(t)) && t.issued == start.issued + |Written(events)|
            && (forall id :: id in s.outcomes ==> id in t.outcomes && t.outcomes[id] == s.outcomes[id])
            && (forall id :: id in s.pending && id !in s.outcomes ==> id in t.outcomes && t.outcomes[id] == Closed)
  {
    hide Drain, EncodeAll, Matching;
    RunReaches(start, events);
    var s := Run(start, events);
    SettleAllSettles(s.outcomes, s.pending);
    var k, first, written := |Matching(events).answered|, start.issued, |Written(events)|;
    forall id | first + k <= id < first + written ensures id in s.pending {
      assert s.pending[id - first - k] == id;
    }
  }

  // ----- A promise is settled once -----

  /** What was settled stays as it was. */
  ghost predicate Stays(before: map<nat, Outcome>, after: map<nat, Outcome>) {
    forall id :: id in before ==> id in after && after[id] == before[id]
  }

  lemma {:induction false} DrainStays(s: State)
    ensures Stays(s.outcomes, DrainStep(s).outcomes)
    decreases |s.buffer|
  {
    hide ParseAt;
    var p := ParseAt(s.buffer, 0);
    if p.Parsed? {
      DrainStays(ReplyStep(s.(buffer := s.buffer[p.next..]), p.answer));
    }
  }

  lemma {:induction false} LossStays(outcomes: map<nat, Outcome>, ids: seq<nat>)
    ensures Stays(outcomes, SettleAll(outcomes, ids, Closed))
    decreases |ids|
  {
    if |ids| > 0 { LossStays(Settle(outcomes, ids[0], Closed), ids[1..]); }
  }

  /** Whatever happens later, late replies, late timeouts and the loss of the connection included, a settled promise
      keeps its outcome; so a command is timed out only if its timeout came before its reply. */
  lemma {:induction false} OutcomesStay(s: State, events: seq<Event>)
    ensures Stays(s.outcomes, Run(s, events).outcomes)
    ensures Stays(s.outcomes, FailStep(Run(s, events)).outcomes)
    decreases |events|
  {
    hide DrainStep;
    if |events| > 0 {
      OutcomesStay(s, Init(events));
      var t := Run(s, Init(events));
      match Last(events)
      case Wrote(_) =>
      case Data(chunk) => DrainStays(t.(buffer := t.buffer + chunk));
      case Timeout(_) =>
    }
    LossStays(Run(s, events).outcomes, Run(s, events).pending);
  }
}
