/** The gate before password hashing: a bounded number of permits, handed over from a finishing caller
    to the first of a bounded queue. */
module HashingGate {
  import opened Options
  import opened Sets

  const MAX_QUEUED: nat := 64

  /** `active` and `waiting` are the gate's own; the rest is what became of the callers. A caller that was
      handed a permit has it before it runs again. */
  datatype State = State(
    active: nat,
    waiting: seq<nat>,
    accepted: seq<nat>,
    granted: seq<nat>,
    woken: set<nat>,
    running: set<nat>,
    finished: set<nat>,
    refused: set<nat>)

  /** Finishing is the same whether the work succeeded or failed. */
  datatype Event = Arrive(caller: nat) | Resume(caller: nat) | Finish(caller: nat)

  const START: State := State(0, [], [], [], {}, {}, {}, {})

  predicate Known(s: State, c: nat) {
    c in s.accepted || c in s.refused
  }

  function ArriveStep(limit: nat, s: State, c: nat): State {
    if s.active >= limit then
      if |s.waiting| >= MAX_QUEUED then s.(refused := s.refused + {c})
      else s.(waiting := s.waiting + [c], accepted := s.accepted + [c])
    else s.(active := s.active + 1, accepted := s.accepted + [c], granted := s.granted + [c], running := s.running + {c})
  }

  function ResumeStep(s: State, c: nat): State {
    s.(woken := s.woken - {c}, running := s.running + {c})
  }

  function FinishStep(s: State, c: nat): State {
    var t := s.(running := s.running - {c}, finished := s.finished + {c});
    if |s.waiting| == 0 then t.(active := if s.active > 0 then s.active - 1 else 0)
    else t.(waiting := s.waiting[1..], granted := s.granted + [s.waiting[0]], woken := s.woken + {s.waiting[0]})
  }

  /** Callers arrive once; only a woken caller resumes and only a running one finishes. */
  function Step(limit: nat, s: State, e: Event): Option<State> {
    match e
    case Arrive(c) => if Known(s, c) then None else Some(ArriveStep(limit, s, c))
    case Resume(c) => if c in s.woken then Some(ResumeStep(s, c)) else None
    case Finish(c) => if c in s.running then Some(FinishStep(s, c)) else None
  }

  function Run(limit: nat, s: State, events: seq<Event>): Option<State>
    decreases |events|
  {
    if |events| == 0 then Some(s) else
    var t := Step(limit, s, events[0]);
    if t.None? then None else Run(limit, t.value, events[1..])
  }

  class Gate {
    const limit: nat
    var active: nat
    var waiting: seq<nat>
    ghost var history: State

    ghost predicate Valid()
      reads this
    {
      history.active == active && history.waiting == waiting && Kept(limit, history)
    }

    constructor (limit: nat)
      requires limit >= 1
      ensures Valid() && history == START && this.limit == limit
    {
      this.limit, active, waiting, history := limit, 0, [], START;
    }

    /** A caller's first steps, up to its work or to waiting for a permit. */
    method Enter(c: nat) returns (accepted: bool)
      requires Valid() && !Known(history, c)
      modifies this
      ensures Valid() && Some(history) == Step(limit, old(history), Arrive(c))
      ensures accepted <==> old(active) < limit || |old(waiting)| < 64
    {
      ArriveKeeps(limit, history, c);
      history := ArriveStep(limit, history, c);
      if active >= limit {
        if |waiting| >= MAX_QUEUED { return false; }
        waiting := waiting + [c];
      } else {
        active := active + 1;
      }
      return true;
    }

    /** A caller that was handed a permit goes on to its work; the gate's own state is as it was. */
    ghost method Resume(c: nat)
      requires Valid() && c in history.woken
      modifies this`history
      ensures Valid() && Some(history) == Step(limit, old(history), Event.Resume(c))
    {
      ResumeKeeps(limit, history, c);
      history := ResumeStep(history, c);
    }

    /** A caller's last step: the permit goes to the first that waits, or is given back. */
    method Leave(c: nat) returns (next: Option<nat>)
      requires Valid() && c in history.running
      modifies this
      ensures Valid() && Some(history) == Step(limit, old(history), Finish(c))
      ensures next == if |old(waiting)| == 0 then None else Some(old(waiting)[0])
      ensures next.Some? ==> active == old(active)
    {
      FinishKeeps(limit, history, c);
      history := FinishStep(history, c);
      if |waiting| == 0 {
        active := active - 1;
        return None;
      }
      next := Some(waiting[0]);
      waiting := waiting[1..];
    }
  }

  // ----- What every interleaving keeps -----

  predicate NoRepeats(s: seq<nat>) {
    forall i, j :: 0 <= i < j < |s| ==> s[i] != s[j]
  }

  /** Grants follow arrivals: those granted, then those waiting, are those accepted, in order. */
  predicate InOrder(s: State) {
    s.granted + s.waiting == s.accepted && NoRepeats(s.accepted)
  }

  /** The callers granted a permit are those who hold it, awake or not yet, and those who finished. */
  ghost predicate Parted(s: State) {
    && s.woken !! s.running !! s.finished
    && (forall c :: c in s.granted ==> c in s.woken || c in s.running || c in s.finished)
    && (forall c :: c in s.woken || c in s.running || c in s.finished ==> c in s.granted)
  }

  predicate Bounded(limit: nat, s: State) {
    && |s.woken| + |s.running| == s.active <= limit
    && |s.waiting| <= 64
    && (|s.waiting| > 0 ==> s.active == limit)
  }

  predicate Apart(s: State) {
    forall c :: c in s.refused ==> c !in s.accepted
  }

  ghost predicate Kept(limit: nat, s: State) {
    limit >= 1 && InOrder(s) && Parted(s) && Bounded(limit, s) && Apart(s)
  }

  lemma ArriveInOrder(limit: nat, s: State, c: nat)
    requires InOrder(s) && c !in s.accepted && (|s.waiting| > 0 ==> s.active >= limit)
    ensures InOrder(ArriveStep(limit, s, c))
  {
    var t := ArriveStep(limit, s, c);
    assert s.granted + (s.waiting + [c]) == s.accepted + [c];
    if s.active < limit { assert s.granted + [c] + s.waiting == s.accepted + [c]; }
  }

  lemma ArriveParted(limit: nat, s: State, c: nat)
    requires Parted(s) && c !in s.granted
    ensures Parted(ArriveStep(limit, s, c))
  {
  }

  lemma ArriveBounded(limit: nat, s: State, c: nat)
    requires Bounded(limit, s) && c !in s.running
    ensures Bounded(limit, ArriveStep(limit, s, c))
  {
  }

  lemma NotRunning(s: State, c: nat)
    requires Parted(s) && c !in s.granted
    ensures c !in s.running
  {
  }

  lemma ArriveApart(limit: nat, s: State, c: nat)
    requires Apart(s) && !Known(s, c)
    ensures Apart(ArriveStep(limit, s, c))
  {
  }

  lemma ArriveKeeps(limit: nat, s: State, c: nat)
    requires Kept(limit, s) && !Known(s, c)
    ensures Kept(limit, ArriveStep(limit, s, c))
  {
    hide InOrder, NoRepeats, Parted, Apart, ArriveStep;
    GrantedAreAccepted(s, c);
    NotRunning(s, c);
    ArriveInOrder(limit, s, c);
    ArriveParted(limit, s, c);
    hide Bounded;
    ArriveBounded(limit, s, c);
    ArriveApart(limit, s, c);
  }

  lemma GrantedAreAccepted(s: State, c: nat)
    requires InOrder(s) && c !in s.accepted
    ensures c !in s.granted
  {
    assert forall x :: x in s.granted ==> x in s.granted + s.waiting;
  }

  lemma ResumeKeeps(limit: nat, s: State, c: nat)
    requires Kept(limit, s) && c in s.woken
    ensures Kept(limit, ResumeStep(s, c))
  {
  }

  lemma NextWasAsleep(limit: nat, s: State)
    requires Kept(limit, s) && |s.waiting| > 0
    ensures s.waiting[0] !in s.granted && s.waiting[0] !in s.woken
  {
    var w := s.waiting[0];
    assert w == s.accepted[|s.granted|];
    forall i | 0 <= i < |s.granted| ensures s.granted[i] != w {
      assert s.accepted[i] == s.granted[i];
    }
  }

  lemma FinishInOrder(s: State, c: nat)
    requires InOrder(s)
    ensures InOrder(FinishStep(s, c))
  {
    var t := FinishStep(s, c);
    if |s.waiting| > 0 { assert t.granted + t.waiting == s.granted + s.waiting; }
  }

  lemma FinishParted(s: State, c: nat)
    requires Parted(s) && c in s.running && (|s.waiting| > 0 ==> s.waiting[0] !in s.granted)
    ensures Parted(FinishStep(s, c))
  {
  }

  lemma FinishBounded(limit: nat, s: State, c: nat)
    requires Bounded(limit, s) && c in s.running && (|s.waiting| > 0 ==> s.waiting[0] !in s.woken)
    ensures Bounded(limit, FinishStep(s, c))
  {
    assert |s.running - {c}| == |s.running| - 1;
  }

  lemma FinishApart(s: State, c: nat)
    requires Apart(s)
    ensures Apart(FinishStep(s, c))
  {
  }

  lemma FinishKeeps(limit: nat, s: State, c: nat)
    requires Kept(limit, s) && c in s.running
    ensures Kept(limit, FinishStep(s, c))
  {
    if |s.waiting| > 0 { NextWasAsleep(limit, s); }
    hide InOrder, NoRepeats, Parted, Apart, FinishStep, Bounded;
    FinishInOrder(s, c);
    FinishParted(s, c);
    FinishBounded(limit, s, c);
    FinishApart(s, c);
  }

  lemma StepKeeps(limit: nat, s: State, e: Event)
    requires Kept(limit, s) && Step(limit, s, e).Some?
    ensures Kept(limit, Step(limit, s, e).value)
  {
    match e
    case Arrive(c) => ArriveKeeps(limit, s, c);
    case Resume(c) => ResumeKeeps(limit, s, c);
    case Finish(c) => FinishKeeps(limit, s, c);
  }

  /** In every interleaving of arrivals, resumptions and completions. */
  lemma {:induction false} RunKeeps(limit: nat, s: State, events: seq<Event>)
    requires Kept(limit, s) && Run(limit, s, events).Some?
    ensures Kept(limit, Run(limit, s, events).value)
    decreases |events|
  {
    hide Kept, Step;
    if |events| > 0 {
      StepKeeps(limit, s, events[0]);
      RunKeeps(limit, Step(limit, s, events[0]).value, events[1..]);
    }
  }

  /** Every reachable state: order, permits and the queue's bound. */
  lemma Reachable(limit: nat, events: seq<Event>)
    requires limit >= 1 && Run(limit, START, events).Some?
    ensures var s := Run(limit, START, events).value;
            && s.granted + s.waiting == s.accepted && NoRepeats(s.accepted)
            && |s.woken| + |s.running| == s.active <= limit
            && |s.waiting| <= 64 && (|s.waiting| > 0 ==> s.active == limit)
            && (forall c :: c in s.granted <==> c in s.woken || c in s.running || c in s.finished)
            && (forall c :: c in s.refused ==> c !in s.accepted)
  {
    RunKeeps(limit, START, events);
  }

  /** A caller is refused exactly when every permit is held and the queue is full. */
  lemma RefusedWhenFull(limit: nat, s: State, c: nat)
    requires Kept(limit, s) && !Known(s, c)
    ensures c in ArriveStep(limit, s, c).refused <==> s.active == limit && |s.waiting| == 64
    ensures c in ArriveStep(limit, s, c).refused ==> ArriveStep(limit, s, c) == s.(refused := s.refused + {c})
  {
  }

  // ----- Draining -----

  predicate IsArrival(e: Event) {
    e.Arrive?
  }

  /** Steps still to come without arrivals: one to wake and one to finish. */
  function Remaining(s: State): nat {
    2 * |s.waiting| + 2 * |s.woken| + |s.running|
  }

  lemma StepDrains(limit: nat, s: State, e: Event)
    requires Kept(limit, s) && !IsArrival(e) && Step(limit, s, e).Some?
    ensures var t := Step(limit, s, e).value;
            Remaining(t) + 1 == Remaining(s) && t.accepted == s.accepted && t.refused == s.refused
  {
    match e
    case Resume(c) =>
    case Finish(c) => if |s.waiting| > 0 { NextWasAsleep(limit, s); }
  }

  /** Without arrivals a run takes exactly its steps off what remains, so it cannot be longer. */
  lemma {:induction false} RunDrains(limit: nat, s: State, events: seq<Event>)
    requires Kept(limit, s) && Run(limit, s, events).Some?
    requires forall e :: e in events ==> !IsArrival(e)
    ensures var t := Run(limit, s, events).value;
            Remaining(t) + |events| == Remaining(s) && t.accepted == s.accepted && t.refused == s.refused
    decreases |events|
  {
    hide Kept, Step, Remaining, IsArrival;
    if |events| > 0 {
      StepKeeps(limit, s, events[0]);
      StepDrains(limit, s, events[0]);
      RunDrains(limit, Step(limit, s, events[0]).value, events[1..]);
    }
  }

  /** While anything remains, some caller can take a step. */
  lemma NeverStuck(limit: nat, s: State)
    requires Kept(limit, s) && Remaining(s) > 0
    ensures exists c :: Step(limit, s, Resume(c)).Some? || Step(limit, s, Finish(c)).Some?
  {
    if |s.woken| > 0 {
      var c := Pick(s.woken);
      assert Step(limit, s, Resume(c)).Some?;
    } else {
      var c := Pick(s.running);
      assert Step(limit, s, Finish(c)).Some?;
    }
  }

  /** From any reachable state, however the callers are scheduled, a run without arrivals that has no step left
      to take has given every accepted caller its permit in order, finished it, and freed every permit. */
  lemma DrainsToZero(limit: nat, s: State, events: seq<Event>)
    requires Kept(limit, s) && Run(limit, s, events).Some?
    requires forall e :: e in events ==> !IsArrival(e)
    ensures |events| <= Remaining(s)
    ensures var t := Run(limit, s, events).value;
            |events| == Remaining(s) <==>
            && t.active == 0 && t.waiting == [] && t.woken == {} && t.running == {}
            && t.granted == s.accepted && forall c :: c in s.accepted ==> c in t.finished
    ensures |events| < Remaining(s) ==>
            var t := Run(limit, s, events).value;
            exists c :: Step(limit, t, Resume(c)).Some? || Step(limit, t, Finish(c)).Some?
  {
    hide Step;
    RunKeeps(limit, s, events);
    RunDrains(limit, s, events);
    var t := Run(limit, s, events).value;
    if |events| < Remaining(s) { NeverStuck(limit, t); }
    if Remaining(t) == 0 { assert t.granted + [] == t.granted; }
  }
}
