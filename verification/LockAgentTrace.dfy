/** What a trace of the lock agent must look like, stated without the agent.

    `Observe` is the contract of the session API and of the two things a touch may cause,
    written as an automaton over events. `Watch` runs it over a trace; the lemmas below say
    what acceptance means in terms of positions and counts of events only. */
module LockAgentTrace {
  import opened Options
  import opened LockAgent

  datatype Session = Released | Pending | Ready | Unusable

  /** What the last answer of the sensor still entitles the agent to do. */
  datatype Credit = NoCredit | Touched(captured: Phase) | Confirmed

  datatype Monitor = Rejected | Monitor(session: Session, credit: Credit)

  const FRESH := Monitor(Released, NoCredit)

  /** True of the events that are calls of the session API, or the notification that the sensor is free. */
  predicate OnSensor(e: Event) {
    e.OpenStarted? || e.OpenDone? || e.OpenFailed? || e.Closed? || e.Identified? || e.YieldReady?
  }

  function Observe(mon: Monitor, e: Event): Monitor {
    if mon.Rejected? then Rejected
    else
      match e
      case OpenStarted => if mon.session == Released then Monitor(Pending, NoCredit) else Rejected
      case OpenDone => if mon.session == Pending then Monitor(Ready, NoCredit) else Rejected
      case OpenFailed => if mon.session == Pending then Monitor(Released, NoCredit) else Rejected
      case Closed => if mon.session in {Ready, Unusable} then Monitor(Released, NoCredit) else Rejected
      case YieldReady => if mon.session == Released then Monitor(Released, NoCredit) else Rejected
      case Identified(captured, answer) =>
        if mon.session != Ready || captured == Idle then Rejected
        else if answer == Match then Monitor(Ready, Touched(captured))
        else Monitor(if answer in {Error, Aborted} then Unusable else Ready, NoCredit)
      case SawPolling => if mon.credit == Touched(Polling) then mon.(credit := Confirmed) else Rejected
      case Typed => if mon.credit == Confirmed then mon.(credit := NoCredit) else Rejected
      case LockKey => if mon.credit == Touched(LockArmed) then mon.(credit := NoCredit) else Rejected
      case Armed => mon
      case Disarmed => mon
      case Paused => mon
      case Preempted => mon
  }

  function Watch(trace: seq<Event>): Monitor {
    if trace == [] then FRESH else Observe(Watch(trace[..|trace| - 1]), trace[|trace| - 1])
  }

  predicate Accepted(trace: seq<Event>) { Watch(trace).Monitor? }

  function Count(trace: seq<Event>, wanted: set<Event>): nat {
    if trace == [] then 0
    else Count(trace[..|trace| - 1], wanted) + if trace[|trace| - 1] in wanted then 1 else 0
  }

  lemma Snoc(trace: seq<Event>, e: Event)
    ensures Watch(trace + [e]) == Observe(Watch(trace), e)
    ensures forall wanted :: Count(trace + [e], wanted) == Count(trace, wanted) + if e in wanted then 1 else 0
  {
    assert (trace + [e])[..|trace|] == trace;
  }

  /** A refused trace stays refused, so acceptance covers every moment of a run. */
  lemma {:induction false} PrefixAccepted(trace: seq<Event>, k: nat)
    requires Accepted(trace) && k <= |trace|
    ensures Accepted(trace[..k])
    decreases |trace|
  {
    if k == |trace| {
      assert trace[..k] == trace;
    } else {
      var front := trace[..|trace| - 1];
      PrefixAccepted(front, k);
      assert front[..k] == trace[..k];
    }
  }

  /** The last call on the sensor, which alone decides what the session is. */
  function LastOnSensor(trace: seq<Event>): Option<Event> {
    if trace == [] then None
    else if OnSensor(trace[|trace| - 1]) then Some(trace[|trace| - 1])
    else LastOnSensor(trace[..|trace| - 1])
  }

  function SessionAfter(last: Option<Event>): Session {
    match last
    case None => Released
    case Some(e) =>
      if e.OpenStarted? then Pending
      else if e.OpenDone? || (e.Identified? && e.answer in {Match, NoMatch, NoFinger}) then Ready
      else if e.Identified? then Unusable
      else Released
  }

  lemma {:induction false} SessionIsDecidedByLastCall(trace: seq<Event>)
    requires Accepted(trace)
    ensures Watch(trace).session == SessionAfter(LastOnSensor(trace))
  {
    if trace != [] {
      PrefixAccepted(trace, |trace| - 1);
      SessionIsDecidedByLastCall(trace[..|trace| - 1]);
    }
  }

  /** The session API's typestate at one position of an accepted trace, in terms of the call before it:
      a session is opened only when none is held, identify only meets an open and usable one, and after
      an error or an abort the very next call on the sensor is the close. */
  lemma TypestateAt(trace: seq<Event>, i: nat)
    requires Accepted(trace) && i < |trace|
    ensures var last := LastOnSensor(trace[..i]);
            && (trace[i].OpenStarted? || trace[i].YieldReady? ==>
                last == None || last.value in {Closed, OpenFailed, YieldReady})
            && (trace[i].Identified? ==>
                  last.Some? && (last.value.OpenDone?
                                 || (last.value.Identified? && last.value.answer in {Match, NoMatch, NoFinger})))
            && (last.Some? && last.value.Identified? && last.value.answer in {Error, Aborted} && OnSensor(trace[i]) ==>
                  trace[i].Closed?)
  {
    PrefixAccepted(trace, i);
    PrefixAccepted(trace, i + 1);
    assert trace[..i + 1][..i] == trace[..i];
    SessionIsDecidedByLastCall(trace[..i]);
    LastIsOnSensor(trace[..i]);
  }

  lemma {:induction false} LastIsOnSensor(trace: seq<Event>)
    ensures LastOnSensor(trace).Some? ==> OnSensor(LastOnSensor(trace).value)
  {
    if trace != [] { LastIsOnSensor(trace[..|trace| - 1]); }
  }

  /** What a standing credit says about the past: the match it came from, with no call on the sensor since. */
  predicate Earned(trace: seq<Event>, credit: Credit, j: nat) {
    && j < |trace|
    && (forall k :: j < k < |trace| ==> !OnSensor(trace[k]))
    && match credit
       case NoCredit => false
       case Touched(captured) => trace[j] == Identified(captured, Match)
       case Confirmed => trace[j] == Identified(Polling, Match) && SawPolling in trace[j + 1..]
  }

  lemma {:induction false} CreditIsEarned(trace: seq<Event>) returns (j: nat)
    requires Accepted(trace) && !Watch(trace).credit.NoCredit?
    ensures Earned(trace, Watch(trace).credit, j)
  {
    var front, e := trace[..|trace| - 1], trace[|trace| - 1];
    PrefixAccepted(trace, |front|);
    if e.Identified? {
      j := |front|;
    } else {
      j := CreditIsEarned(front);
      assert trace[j + 1..] == front[j + 1..] + [e];
    }
  }

  /** Every password typed goes back to a MATCH in an iteration that had captured POLLING, with POLLING
      read again after it and no other call on the sensor in between; every lock keystroke goes back to
      a MATCH in an iteration that had captured LOCK_ARMED. */
  lemma ActsAreEarned(trace: seq<Event>, i: nat) returns (j: nat)
    requires Accepted(trace) && i < |trace| && trace[i] in {Typed, LockKey}
    ensures j < i && (forall k :: j < k < i ==> !OnSensor(trace[k]))
    ensures trace[i] == Typed ==> trace[j] == Identified(Polling, Match) && SawPolling in trace[j + 1..i]
    ensures trace[i] == LockKey ==> trace[j] == Identified(LockArmed, Match)
  {
    PrefixAccepted(trace, i);
    PrefixAccepted(trace, i + 1);
    assert trace[..i + 1][..i] == trace[..i];
    j := CreditIsEarned(trace[..i]);
    assert trace[..i][j + 1..] == trace[j + 1..i];
  }

  const MATCHES := {Identified(Polling, Match), Identified(LockArmed, Match)}
  const ACTS := {Typed, LockKey}

  /** A match pays for at most one act. */
  lemma {:induction false} ActsNeverExceedMatches(trace: seq<Event>)
    requires Accepted(trace)
    ensures Count(trace, ACTS) + (if Watch(trace).credit.NoCredit? then 0 else 1) <= Count(trace, MATCHES)
  {
    if trace != [] {
      PrefixAccepted(trace, |trace| - 1);
      ActsNeverExceedMatches(trace[..|trace| - 1]);
    }
  }
}
