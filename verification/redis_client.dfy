/** One Redis connection: the queue of waiters behind the reply stream. */
module RedisClient {
  import opened Buffers
  import opened Resp

  type Command = seq<seq<byte>>

  /** How a caller's promise is settled; the first time counts. */
  datatype Outcome = Answered(answer: Answer) | TimedOut | Closed | NotConnected

  /** Commands are numbered as callers issue them, and a waiter is its command's number. */
  datatype State = State(
    connected: bool,
    buffer: seq<byte>,
    pending: seq<nat>,
    outcomes: map<nat, Outcome>,
    sent: seq<byte>,
    issued: nat)

  function Settle(outcomes: map<nat, Outcome>, id: nat, o: Outcome): map<nat, Outcome> {
    if id in outcomes then outcomes else outcomes[id := o]
  }

  function SettleAll(outcomes: map<nat, Outcome>, ids: seq<nat>, o: Outcome): map<nat, Outcome>
    decreases |ids|
  {
    if |ids| == 0 then outcomes else SettleAll(Settle(outcomes, ids[0], o), ids[1..], o)
  }

  function EncodeAll(commands: seq<Command>): seq<byte> {
    if |commands| == 0 then []
    else EncodeAll(commands[..|commands| - 1]) + Encode(commands[|commands| - 1])
  }

  function Numbers(from: nat, count: nat): (ids: seq<nat>)
    ensures |ids| == count
  {
    seq(count, i requires 0 <= i < count => from + i)
  }

  // ----- Steps -----

  function Connect(s: State): State {
    s.(connected := true)
  }

  function SendStep(s: State, command: Command): State {
    if !s.connected then s.(outcomes := Settle(s.outcomes, s.issued, NotConnected), issued := s.issued + 1)
    else WriteStep(s, [command])
  }

  /** Waiters in order of writing, and the commands joined. */
  function WriteStep(s: State, commands: seq<Command>): State {
    s.(pending := s.pending + Numbers(s.issued, |commands|),
       sent := s.sent + EncodeAll(commands),
       issued := s.issued + |commands|)
  }

  /** A timeout settles the promise and leaves the waiter in the queue. */
  function TimeoutStep(s: State, id: nat): State {
    if id < s.issued then s.(outcomes := Settle(s.outcomes, id, TimedOut)) else s
  }

  function FailStep(s: State): State {
    s.(connected := false, buffer := [], pending := [], outcomes := SettleAll(s.outcomes, s.pending, Closed), sent := [])
  }

  /** A reply goes to the first waiter, and nowhere when there is none. */
  function ReplyStep(s: State, a: Answer): State {
    if |s.pending| == 0 then s
    else s.(pending := s.pending[1..], outcomes := Settle(s.outcomes, s.pending[0], Answered(a)))
  }

  function DrainStep(s: State): State
    decreases |s.buffer|
  {
    var p := ParseAt(s.buffer, 0);
    if !p.Parsed? then s
    else DrainStep(ReplyStep(s.(buffer := s.buffer[p.next..]), p.answer))
  }

  function DataStep(s: State, chunk: seq<byte>): State {
    DrainStep(s.(buffer := s.buffer + chunk))
  }

  class Redis {
    var connected: bool
    var buffer: seq<byte>
    var pending: seq<nat>
    var outcomes: map<nat, Outcome>
    var sent: seq<byte>
    var issued: nat

    function Abstract(): State
      reads this
    {
      State(connected, buffer, pending, outcomes, sent, issued)
    }

    constructor ()
      ensures Abstract() == State(false, [], [], map[], [], 0)
    {
      connected, buffer, pending, outcomes, sent, issued := false, [], [], map[], [], 0;
    }

    method OnConnect()
      modifies this
      ensures Abstract() == Connect(old(Abstract()))
    {
      connected := true;
    }

    method Send(parts: Command)
      modifies this
      ensures Abstract() == SendStep(old(Abstract()), parts)
    {
      var id := issued;
      issued := issued + 1;
      if !connected {
        outcomes := Settle(outcomes, id, NotConnected);
        return;
      }
      pending := pending + [id];
      var bytes := EncodeCommand(parts);
      sent := sent + bytes;
      assert Numbers(id, 1) == [id];
      assert EncodeAll([parts]) == EncodeAll([parts][..0]) + Encode(parts) == Encode(parts);
    }

    /** Refused, with nothing issued, when there is no connection. */
    method Pipeline(commands: seq<Command>) returns (ok: bool)
      modifies this
      ensures ok == old(connected)
      ensures Abstract() == if ok then WriteStep(old(Abstract()), commands) else old(Abstract())
    {
      if !connected { return false; }
      var joined: seq<byte> := [];
      var first := issued;
      for i := 0 to |commands|
        invariant connected == old(connected) && buffer == old(buffer) && outcomes == old(outcomes) && sent == old(sent)
        invariant issued == first + i && pending == old(pending) + Numbers(first, i)
        invariant joined == EncodeAll(commands[..i])
      {
        assert Numbers(first, i + 1) == Numbers(first, i) + [first + i];
        pending := pending + [issued];
        issued := issued + 1;
        var bytes := EncodeCommand(commands[i]);
        assert commands[..i + 1][..i] == commands[..i];
        joined := joined + bytes;
      }
      assert commands[..|commands|] == commands;
      sent := sent + joined;
      return true;
    }

    method OnData(chunk: seq<byte>)
      modifies this
      ensures Abstract() == DataStep(old(Abstract()), chunk)
    {
      buffer := buffer + chunk;
      DrainBuffer();
    }

    method DrainBuffer()
      modifies this
      ensures Abstract() == DrainStep(old(Abstract()))
    {
      while true
        invariant DrainStep(Abstract()) == DrainStep(old(Abstract()))
        decreases |buffer|
      {
        var parsed := ParseReply(buffer, 0);
        if !parsed.Parsed? { return; }
        buffer := buffer[parsed.next..];
        if |pending| > 0 {
          var waiter := pending[0];
          pending := pending[1..];
          outcomes := Settle(outcomes, waiter, Answered(parsed.answer));
        }
      }
    }

    method OnTimeout(id: nat)
      modifies this
      ensures Abstract() == TimeoutStep(old(Abstract()), id)
    {
      if id < issued { outcomes := Settle(outcomes, id, TimedOut); }
    }

    method Fail()
      modifies this
      ensures Abstract() == FailStep(old(Abstract()))
    {
      var lost := pending;
      connected, pending, buffer, sent := false, [], [], [];
      for i := 0 to |lost|
        invariant !connected && pending == [] && buffer == [] && sent == [] && issued == old(issued)
        invariant SettleAll(outcomes, lost[i..], Closed) == SettleAll(old(outcomes), lost, Closed)
      {
        outcomes := Settle(outcomes, lost[i], Closed);
        assert lost[i..][1..] == lost[i + 1..];
      }
    }
  }
}
