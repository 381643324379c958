/** The end of a yield. It withdraws the acknowledgement only if it still finds the flag set, and it cannot withdraw one
    the polling thread has already taken; so the yield-ready notification can follow the end of its yield. */
module LockAgentEnd {
  import opened Options
  import opened LockAgent
  import opened LockAgentTrace
  import opened LockAgentRuns
  import opened LockAgentYield
  import opened LockAgentNotice
  import opened LockAgentTimeout

  predicate Notifying(p: Poller) { p.pc == InSession(Notify) }

  // ---------- what the handler leaves ----------

  /** Undisturbed, the handler of an end leaves a notification due if and only if it found the flag lowered with the
      acknowledgement pending, or the polling thread had taken the acknowledgement. */
  lemma EndWithdrawsIff(a: Agent, w: World, w': World)
    requires a.m.pc == OnYield(EndExchange)
    ensures var b := Step(Step(a, Choice(MainLoop, w)).agent, Choice(MainLoop, w')).agent;
            Due(b) > 0 <==> (a.sh.yieldAck && !a.sh.yieldActive) || Notifying(a.p)
  {
    hide PollStep, ArmStep, TriggerStep, UnlockStep, TickStep;
  }

  /** Step i of the run is the exchange of an end, and by position j the handler has done all it does to the
      acknowledgement: nothing when it finds the flag lowered, else the store that comes next. */
  predicate Ends(schedule: seq<Choice>, i: nat, j: nat) {
    && i < j <= |schedule| && schedule[i].actor == MainLoop && Run(schedule[..i]).m.pc == OnYield(EndExchange)
    && if Run(schedule[..i]).sh.yieldActive then
         i + 1 < j && schedule[j - 1].actor == MainLoop && Run(schedule[..j - 1]).m.pc == OnYield(EndAck)
       else j == i + 1
  }

  /** The same in every run, with the polling thread moving between the handler's steps. */
  lemma DueAfterEndIff(schedule: seq<Choice>, i: nat, j: nat)
    requires Ends(schedule, i, j)
    ensures var a, b := Run(schedule[..i]), Run(schedule[..j]);
            Due(b) > 0 <==> (a.sh.yieldAck && !a.sh.yieldActive) || Notifying(b.p)
  {
    hide Run, Step;
    RunOfPrefix(schedule, j - 1);
    if Run(schedule[..i]).sh.yieldActive { AckIsStored(Run(schedule[..j - 1]), schedule[j - 1]); }
    else { FlagIsDown(Run(schedule[..i]), schedule[i]); }
  }

  lemma AckIsStored(a: Agent, c: Choice)
    requires a.m.pc == OnYield(EndAck) && c.actor == MainLoop
    ensures var b := Step(a, c).agent; b.p == a.p && !b.sh.yieldAck
  {
  }

  lemma FlagIsDown(a: Agent, c: Choice)
    requires a.m.pc == OnYield(EndExchange) && c.actor == MainLoop && !a.sh.yieldActive
    ensures var b := Step(a, c).agent; b.p == a.p && b.sh.yieldAck == a.sh.yieldAck && b.sh.running == a.sh.running
  {
  }

  // ---------- what follows ----------

  /** No begin is handled in the continuation. */
  predicate NoBegin(schedule: seq<Choice>, tail: seq<Choice>) {
    forall k :: 0 <= k < |tail| ==> !HandlesBegin(Run(schedule + tail[..k]), tail[k])
  }

  function Notices(schedule: seq<Choice>): nat { Count(Trace(schedule), TOLD) }

  predicate AtAck(p: Poller) { p.pc == InSession(Ack) && !p.sessionOpen }

  /** A notification can still come without another begin: the acknowledgement is taken, or it is pending and the
      polling thread can get to it, because it is about to look or the agent goes on running. */
  predicate CanTell(a: Agent) { Notifying(a.p) || (a.sh.yieldAck && (a.sh.running || AtAck(a.p))) }

  predicate Halting(pc: PollPc) { pc.InSession? && (pc.session.Exit? || pc.session.Ended?) }

  /** One step of the polling thread, seen from the places around the acknowledgement. */
  predicate AckStep(sh: Shared, p: Poller, n: PollNext) {
    && n.sh.running == sh.running
    && (n.sh.yieldAck ==> sh.yieldAck)
    && (Notifying(n.p) ==> AtAck(p) && sh.yieldAck)
    && (AtAck(n.p) ==> p.pc == HEAD && sh.running)
    && (Halting(n.p.pc) ==> (p.pc == HEAD && !sh.running) || Halting(p.pc))
    && (n.event == Some(YieldReady) ==> Notifying(p))
  }

  lemma OpeningAcks(sh: Shared, p: Poller, w: World)
    requires p.pc == InSession(SessionAt.Opening)
    ensures AckStep(sh, p, OpenReturns(sh, p, w))
  {
  }

  lemma WantAcks(sh: Shared, p: Poller, y: YieldAt, w: World)
    requires p.pc == InSession(Want(y))
    ensures AckStep(sh, p, SessionStep(sh, p, Want(y), w))
  {
    hide OpenReturns, CloseSession;
  }

  lemma SessionAcks(sh: Shared, p: Poller, at: SessionAt, w: World)
    requires p.pc == InSession(at)
    ensures AckStep(sh, p, SessionStep(sh, p, at, w))
  {
    hide OpenReturns, YieldStep;
    if at.Opening? { OpeningAcks(sh, p, w); }
    if at.Want? { WantAcks(sh, p, at.y, w); }
  }

  lemma AnswersAck(sh: Shared, p: Poller, answer: Answer)
    requires p.pc.InIdentify?
    ensures AckStep(sh, p, Answered(sh, p, answer)) && AckStep(sh, p, SpoiledStep(sh, p, answer))
  {
  }

  lemma IdentifyAcks(sh: Shared, p: Poller, at: IdentifyAt, w: World)
    requires p.pc == InIdentify(at)
    ensures AckStep(sh, p, IdentifyStep(sh, p, at, w))
  {
    hide Answered, SpoiledStep, YieldStep;
    if at.AbortYield? { AbortAcks(sh, p, at.y, w); } else { forall answer { AnswersAck(sh, p, answer); } }
  }

  lemma AbortAcks(sh: Shared, p: Poller, y: YieldAt, w: World)
    requires p.pc == InIdentify(AbortYield(y))
    ensures AckStep(sh, p, IdentifyStep(sh, p, AbortYield(y), w))
  {
    hide Answered, SpoiledStep;
    AnswersAck(YieldStep(sh, y).0, p, Aborted);
  }

  lemma GiveUpAcks(sh: Shared, p: Poller, at: GiveUpAt, w: World)
    requires p.pc == InGiveUp(at)
    ensures AckStep(sh, p, GiveUpStep(sh, p, at, w))
  {
    hide SettleStep;
    SubroutinesAreQuiet(sh, w);
    if at.AbandonSettle? { SettleOnlyLowers(sh, at.s, w); }
  }

  lemma TouchAcks(sh: Shared, p: Poller, at: TouchAt, w: World)
    requires p.pc == InTouch(at)
    ensures AckStep(sh, p, TouchStep(sh, p, at, w))
  {
    hide ArmStep, Quiet, OnlyLowers;
    if at.TouchArm? { TouchArmAcks(sh, p, at.a, w); }
  }

  lemma TouchArmAcks(sh: Shared, p: Poller, a: ArmAt, w: World)
    requires p.pc == InTouch(TouchArm(a))
    ensures AckStep(sh, p, TouchStep(sh, p, TouchArm(a), w))
  {
    hide ArmStep;
    SubroutinesAreQuiet(sh, w);
    ArmOnlyLowers(sh, a, w);
  }

  lemma MatchAcks(sh: Shared, p: Poller, at: MatchAt, w: World)
    requires p.pc == InMatch(at)
    ensures AckStep(sh, p, MatchStep(sh, p, at, w))
  {
    hide SettleStep;
    SubroutinesAreQuiet(sh, w);
    if at.MatchIdle? { SettleOnlyLowers(sh, at.s, w); }
  }

  lemma MissAcks(sh: Shared, p: Poller, at: MissAt, w: World)
    requires p.pc == InMiss(at)
    ensures AckStep(sh, p, MissStep(sh, p, at, w))
  {
    hide SettleStep;
    SubroutinesAreQuiet(sh, w);
    if at.MissSettle? { SettleOnlyLowers(sh, at.s, w); }
  }

  lemma PollAcks(sh: Shared, p: Poller, w: World)
    ensures AckStep(sh, p, PollStep(sh, p, w))
  {
    hide AckStep;
    match p.pc
    case InSession(at) => SessionAcks(sh, p, at, w);
    case InIdentify(at) => IdentifyAcks(sh, p, at, w);
    case InGiveUp(at) => GiveUpAcks(sh, p, at, w);
    case InTouch(at) => TouchAcks(sh, p, at, w);
    case InMatch(at) => MatchAcks(sh, p, at, w);
    case InMiss(at) => MissAcks(sh, p, at, w);
  }

  /** What can bring a notification about is only a begin. */
  lemma StaysSilent(a: Agent, c: Choice)
    requires !CanTell(a) && !HandlesBegin(a, c)
    ensures !CanTell(Step(a, c).agent) && Step(a, c).event != Some(YieldReady)
  {
    hide MainStep, PollStep;
    var sh := Later(a.sh, c.w);
    match c.actor
    case MainLoop =>
      MainYields(sh, a.m, c.w);
      MainIsQuiet(sh, a.m, c.w);
    case PollThread => PollAcks(sh, a.p, c.w);
    case PasswordThread =>
  }

  lemma RunGrows(schedule: seq<Choice>, c: Choice)
    ensures Run(schedule + [c]) == Step(Run(schedule), c).agent
    ensures Notices(schedule + [c]) == Notices(schedule) + Told(Step(Run(schedule), c).event)
  {
    hide Step;
    var longer := schedule + [c];
    assert longer[..|schedule|] == schedule;
    OneStepTold(longer);
  }

  lemma {:induction false} RunStaysSilent(schedule: seq<Choice>, tail: seq<Choice>)
    requires !CanTell(Run(schedule)) && NoBegin(schedule, tail)
    ensures !CanTell(Run(schedule + tail)) && Notices(schedule + tail) == Notices(schedule)
    decreases |tail|
  {
    hide Run, Step, Trace, CanTell;
    if tail == [] {
      assert schedule + tail == schedule;
    } else {
      var front, c := tail[..|tail| - 1], tail[|tail| - 1];
      assert forall k :: 0 <= k < |front| ==> front[..k] == tail[..k];
      RunStaysSilent(schedule, front);
      assert schedule + tail == (schedule + front) + [c];
      RunGrows(schedule + front, c);
      StaysSilent(Run(schedule + front), c);
    }
  }

  // ---------- how the polling thread gets to a pending acknowledgement ----------

  /** Nothing works: no session opens, every wait for a finger fails, nothing is armed. */
  const GRIM := CALM.(lockEnabled := false, screenLocked := true, opening := Failed, capture := UsbError)

  function SessionWay(at: SessionAt, sessionOpen: bool): nat {
    match at
    case Head => if sessionOpen then 38 else 3
    case Ack => if sessionOpen then 37 else 2
    case Notify => 1
    case ReadPhase => 36
    case Want(y) => (match y case YLoad => 35 case YTime => 34 case YTest(_) => 33 case YStore => 32)
    case NotWanted => 4
    case OpenCall => 31
    case Opening => 30
    case CheckPrints => 30
    case EmptyClose => 20
    case Exit => 0
    case Ended => 0
  }

  function IdentifyWay(at: IdentifyAt): nat {
    match at
    case SetWait => 29
    case Start => 28
    case AbortPhase => 27
    case AbortYield(y) => (match y case YLoad => 26 case YTime => 25 case YTest(_) => 24 case YStore => 23)
    case AbortRunning => 22
    case Finger => 21
    case Spoiled(_) => 20
  }

  function ArmWay(at: ArmAt): nat {
    match at
    case AEnabled => 1
    case AYield(y) => (match y case YLoad => 11 case YTime => 10 case YTest(_) => 9 case YStore => 8)
    case AOs => 7
    case AScanning => 6
    case AGrace => 5
    case AScreen => 4
    case ASensor => 3
    case ARead => 2
    case ACas => 1
  }

  function SettleWay(at: SettleAt): nat {
    match at
    case SStore => 3
    case SGrace => 2
    case SArm(a) => ArmWay(a)
  }

  function GiveUpWay(at: GiveUpAt): nat {
    match at
    case PauseGrace(_) => 5
    case PauseCas => 4
    case AbandonSource => 19
    case AbandonFailures => 18
    case AbandonSettle(s) => SettleWay(s) + 3
  }

  function TouchWay(at: TouchAt): nat {
    match at
    case TouchScreen => 56
    case TouchCas => 55
    case TouchGrace => 54
    case TouchPost => 53
    case TouchVerify => 52
    case TouchPhase => 51
    case TouchArm(a) => ArmWay(a) + 38
  }

  function MatchWay(at: MatchAt): nat {
    match at
    case MatchReady(waits) => if waits < PASSWORD_WAITS then 460 - 2 * waits else 60
    case MatchPhase(waits) => if waits < PASSWORD_WAITS then 459 - 2 * waits else 61
    case MatchRead => 59
    case MatchSnapshot => 58
    case MatchSource => 57
    case MatchFocus => 56
    case MatchSettle => 56
    case MatchRecheck => 55
    case MatchType => 54
    case MatchDone => 53
    case MatchIdle(s) => SettleWay(s) + 38
  }

  function MissWay(at: MissAt): nat {
    match at
    case MissCount => 55
    case MissSource => 54
    case MissFailures => 53
    case MissSettle(s) => SettleWay(s) + 38
  }

  /** Steps of the polling thread, in that world, until it says what is due. */
  function Way(p: Poller): nat {
    match p.pc
    case InSession(at) => SessionWay(at, p.sessionOpen)
    case InIdentify(at) => IdentifyWay(at)
    case InGiveUp(at) => GiveUpWay(at)
    case InTouch(at) => TouchWay(at)
    case InMatch(at) => MatchWay(at)
    case InMiss(at) => MissWay(at)
  }

  predicate Nearer(p: Poller, n: PollNext) { Way(n.p) < Way(p) && (n.sh.yieldAck || Notifying(n.p)) }

  lemma ArmNears(sh: Shared, at: ArmAt)
    ensures ArmWay(at) > 0
    ensures var (sh', next, _) := ArmStep(sh, at, GRIM);
            sh'.yieldAck == sh.yieldAck && (next.AGo? ==> ArmWay(next.at) < ArmWay(at))
  {
  }

  lemma SettleNears(sh: Shared, at: SettleAt)
    ensures SettleWay(at) > 0
    ensures var (sh', next, _) := SettleStep(sh, at, GRIM);
            sh'.yieldAck == sh.yieldAck && (next.SGo? ==> SettleWay(next.at) < SettleWay(at))
  {
    hide ArmStep;
    if at.SArm? { ArmNears(sh, at.a); }
  }

  lemma SessionNears(sh: Shared, p: Poller, at: SessionAt)
    requires p.pc == InSession(at) && PollerOk(p) && sh.yieldAck && sh.running && !Halting(p.pc) && !Notifying(p)
    ensures Nearer(p, SessionStep(sh, p, at, GRIM))
  {
    hide ArmWay, TouchWay, MatchWay, MissWay;
  }

  lemma IdentifyNears(sh: Shared, p: Poller, at: IdentifyAt)
    requires p.pc == InIdentify(at) && PollerOk(p) && sh.yieldAck && sh.running
    ensures Nearer(p, IdentifyStep(sh, p, at, GRIM))
  {
    hide ArmWay, TouchWay, MatchWay, MissWay;
  }

  lemma GiveUpNears(sh: Shared, p: Poller, at: GiveUpAt)
    requires p.pc == InGiveUp(at) && PollerOk(p) && sh.yieldAck
    ensures Nearer(p, GiveUpStep(sh, p, at, GRIM))
  {
    hide SettleStep;
    if at.AbandonSettle? { SettleNears(sh, at.s); }
  }

  lemma TouchNears(sh: Shared, p: Poller, at: TouchAt)
    requires p.pc == InTouch(at) && PollerOk(p) && sh.yieldAck
    ensures Nearer(p, TouchStep(sh, p, at, GRIM))
  {
    hide ArmStep;
    if at.TouchArm? { ArmNears(sh, at.a); }
  }

  lemma MatchNears(sh: Shared, p: Poller, at: MatchAt)
    requires p.pc == InMatch(at) && PollerOk(p) && sh.yieldAck
    ensures Nearer(p, MatchStep(sh, p, at, GRIM))
  {
    hide SettleStep;
    if at.MatchIdle? { SettleNears(sh, at.s); }
  }

  lemma MissNears(sh: Shared, p: Poller, at: MissAt)
    requires p.pc == InMiss(at) && PollerOk(p) && sh.yieldAck
    ensures Nearer(p, MissStep(sh, p, at, GRIM))
  {
    hide SettleStep;
    if at.MissSettle? { SettleNears(sh, at.s); }
  }

  lemma PollNears(sh: Shared, p: Poller)
    requires PollerOk(p) && sh.yieldAck && sh.running && !Halting(p.pc) && !Notifying(p)
    ensures Nearer(p, PollStep(sh, p, GRIM))
  {
    hide Nearer;
    match p.pc
    case InSession(at) => SessionNears(sh, p, at);
    case InIdentify(at) => IdentifyNears(sh, p, at);
    case InGiveUp(at) => GiveUpNears(sh, p, at);
    case InTouch(at) => TouchNears(sh, p, at);
    case InMatch(at) => MatchNears(sh, p, at);
    case InMiss(at) => MissNears(sh, p, at);
  }

  lemma NotifyTells(sh: Shared, p: Poller, w: World)
    requires Notifying(p)
    ensures PollStep(sh, p, w).event == Some(YieldReady)
  {
  }

  lemma AckTakes(sh: Shared, p: Poller, w: World)
    requires AtAck(p) && sh.yieldAck
    ensures Notifying(PollStep(sh, p, w).p) && Way(PollStep(sh, p, w).p) < Way(p)
  {
  }

  /** The polling thread only goes out once the agent has stopped. */
  lemma {:induction false} HaltsWhenStopped(schedule: seq<Choice>)
    ensures Halting(Run(schedule).p.pc) ==> !Run(schedule).sh.running
  {
    hide MainStep, PollStep;
    if schedule != [] {
      var before, c := schedule[..|schedule| - 1], schedule[|schedule| - 1];
      HaltsWhenStopped(before);
      var a := Run(before);
      PollAcks(Later(a.sh, c.w), a.p, c.w);
      MainYields(Later(a.sh, c.w), a.m, c.w);
    }
  }

  const GRUDGE := Choice(PollThread, GRIM)

  lemma TellsNearer(schedule: seq<Choice>)
    requires CanTell(Run(schedule))
    ensures var n := Step(Run(schedule), GRUDGE);
            n.event == Some(YieldReady) || (CanTell(n.agent) && Way(n.agent.p) < Way(Run(schedule).p))
  {
    hide Run, PollStep, Way;
    var a := Run(schedule);
    RunObeysProtocol(schedule);
    HaltsWhenStopped(schedule);
    var sh := Later(a.sh, GRIM);
    if Notifying(a.p) { NotifyTells(sh, a.p, GRIM); }
    else if AtAck(a.p) { AckTakes(sh, a.p, GRIM); }
    else {
      PollNears(sh, a.p);
      PollAcks(sh, a.p, GRIM);
    }
  }

  /** Steps of the polling thread alone that bring the notification. */
  lemma {:induction false} Tells(schedule: seq<Choice>) returns (tail: seq<Choice>)
    requires CanTell(Run(schedule))
    ensures (forall c :: c in tail ==> c.actor == PollThread) && Notices(schedule + tail) > Notices(schedule)
    decreases Way(Run(schedule).p)
  {
    hide Step, Run, Trace, CanTell, Way;
    RunGrows(schedule, GRUDGE);
    TellsNearer(schedule);
    if Step(Run(schedule), GRUDGE).event == Some(YieldReady) {
      tail := [GRUDGE];
    } else {
      var rest := Tells(schedule + [GRUDGE]);
      tail := [GRUDGE] + rest;
      assert schedule + tail == (schedule + [GRUDGE]) + rest;
    }
  }

  /** From any point of any run: no continuation sends a notification without another begin if and only if none is due
      that the polling thread can still get to. */
  lemma SilentIff(schedule: seq<Choice>)
    ensures (forall tail :: NoBegin(schedule, tail) ==> Notices(schedule + tail) == Notices(schedule))
            <==> !CanTell(Run(schedule))
  {
    hide Run, Trace, CanTell;
    if CanTell(Run(schedule)) {
      var tail := Tells(schedule);
      assert forall k :: 0 <= k < |tail| ==> tail[k] in tail;
      assert NoBegin(schedule, tail);
    } else {
      forall tail | NoBegin(schedule, tail) ensures Notices(schedule + tail) == Notices(schedule) {
        RunStaysSilent(schedule, tail);
      }
    }
  }

  /** A notification can follow the end of the last yield, before any other begins, if and only if the handler found the
      flag lowered with the acknowledgement pending in an agent that is not on its way out, or the polling thread had
      taken the acknowledgement by the time of the store. */
  lemma EndSilencesIff(schedule: seq<Choice>, i: nat)
    requires Ends(schedule, i, |schedule|)
    ensures var a, b := Run(schedule[..i]), Run(schedule);
            (forall tail :: NoBegin(schedule, tail) ==> Notices(schedule + tail) == Notices(schedule))
            <==> !Notifying(b.p) && (a.sh.yieldAck && !a.sh.yieldActive ==> !a.sh.running && !AtAck(a.p))
  {
    hide Run, Step, Trace;
    SilentIff(schedule);
    var n := |schedule|;
    assert schedule[..n] == schedule;
    RunOfPrefix(schedule, n - 1);
    if Run(schedule[..i]).sh.yieldActive { AckIsStored(Run(schedule[..n - 1]), schedule[n - 1]); }
    else { FlagIsDown(Run(schedule[..i]), schedule[i]); }
  }

  // ---------- both cases are reached ----------

  const END := Choice(MainLoop, CALM.(request := EndYield))
  const OFF := Choice(MainLoop, CALM.(lockEnabled := false))

  /** The agent has handled an end to its last step and the client has no yield, yet a notification follows. */
  predicate EndedTooLate(s: seq<Choice>, i: nat, j: nat) {
    && Ends(s, i, j) && Run(s).m.pc == LOOP && !Run(s).sh.yieldActive
    && (forall k :: j <= k < |s| ==> s[k].actor == MainLoop)
  }

  /** A begin times out, and the end that comes after that leaves the acknowledgement pending. */
  lemma NoticeAfterTimedOutEnd() returns (s: seq<Choice>, tail: seq<Choice>)
    ensures exists i: nat :: EndedTooLate(s, i, |s|) && !Run(s[..i]).sh.yieldActive
    ensures NoBegin(s, tail) && Notices(s + tail) > Notices(s)
  {
    hide Run, Step, Trace, CanTell;
    s := StartArmed();
    s := Wants(s);
    s := BeginsYield(s);
    s := TimesOut(s);
    s := TakesSensor(s);
    s := EndsTimedOut(s);
    tail := Tells(s);
    assert forall k :: 0 <= k < |tail| ==> tail[k] in tail;
  }

  lemma EndsTimedOut(s: seq<Choice>) returns (t: seq<Choice>)
    requires var a := Run(s); a.m.pc == LOOP && !a.sh.yieldActive && a.sh.yieldAck && a.sh.running
    ensures exists i: nat :: EndedTooLate(t, i, |t|) && !Run(t[..i]).sh.yieldActive
    ensures CanTell(Run(t))
  {
    hide PollStep, Run, Trace;
    var u := s + [END];
    RunGrows(s, END);
    t := u + [MAIN];
    RunGrows(u, MAIN);
    assert t[..|u|] == u;
    assert EndedTooLate(t, |u|, |t|);
  }

  /** The polling thread takes the acknowledgement, the end finds the flag set and runs to its last step, and only then
      the notification is sent. */
  lemma NoticeAfterEnd() returns (s: seq<Choice>, tail: seq<Choice>)
    ensures exists i: nat, j: nat :: EndedTooLate(s, i, j) && Run(s[..i]).sh.yieldActive
    ensures NoBegin(s, tail) && Notices(s + tail) > Notices(s)
  {
    hide Run, Step, Trace, CanTell;
    s := StartArmed();
    s := BeginsYield(s);
    s := TakesAck(s);
    s := EndsInTime(s);
    tail := Tells(s);
    assert forall k :: 0 <= k < |tail| ==> tail[k] in tail;
  }

  lemma TakesAck(s: seq<Choice>) returns (t: seq<Choice>)
    requires var a := Run(s); a.p == START.p && a.sh.running && a.sh.yieldAck
    ensures Run(t).m == Run(s).m && Run(t).sh.yieldActive == Run(s).sh.yieldActive && Notifying(Run(t).p)
  {
    hide MainStep, Run, Trace;
    RunGrows(s, POLL);
    t := s + [POLL];
    RunGrows(t, POLL);
    t := t + [POLL];
  }

  lemma EndsInTime(s: seq<Choice>) returns (t: seq<Choice>)
    requires var a := Run(s); a.m.pc == LOOP && a.sh.yieldActive && Notifying(a.p)
    ensures exists i: nat, j: nat :: EndedTooLate(t, i, j) && Run(t[..i]).sh.yieldActive
    ensures CanTell(Run(t))
  {
    hide PollStep, Run, Trace;
    var u := s + [END];
    RunGrows(s, END);
    var v := u + [MAIN];
    RunGrows(u, MAIN);
    var x := v + [MAIN];
    RunGrows(v, MAIN);
    t := x + [OFF];
    RunGrows(x, OFF);
    assert t[..|u|] == u && t[..|v|] == v && t[|u|] == MAIN && t[|v|] == MAIN;
    assert Ends(t, |u|, |x|);
    assert EndedTooLate(t, |u|, |x|);
  }
}
