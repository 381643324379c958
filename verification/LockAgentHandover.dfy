/** How long the client waits: while the yield flag stays set, the polling thread lets go of the sensor and
    reports it within a fixed number of its own steps, whatever the main run loop, the loader threads, the
    system and the sensor do in the meantime. */
module LockAgentHandover {
  import opened LockAgent
  import opened LockAgentTrace
  import opened LockAgentNotice
  import opened LockAgentRuns
  import opened LockAgentYield

  /** The largest number of steps the subroutines still take, with the yield flag set. */
  function ArmDistance(at: ArmAt): nat {
    match at
    case AEnabled => 12
    case AYield(y) => (match y case YLoad => 11 case YTime => 10 case YTest(_) => 9 case YStore => 8)
    case AOs => 7
    case AScanning => 6
    case AGrace => 5
    case AScreen => 4
    case ASensor => 3
    case ARead => 2
    case ACas => 1
  }

  function SettleDistance(at: SettleAt): nat {
    match at
    case SStore => 14
    case SGrace => 13
    case SArm(a) => ArmDistance(a)
  }

  /** From the loop head: with a session held it takes seven more steps to close it. */
  function HeadDistance(sessionOpen: bool): nat { if sessionOpen then 10 else 3 }

  function SessionDistance(at: SessionAt, sessionOpen: bool, ack: bool): nat {
    match at
    case Head => HeadDistance(sessionOpen)
    case Ack => HeadDistance(sessionOpen) - 1
    case Notify => if ack then 9 else 1
    case ReadPhase => 8
    case Want(y) => (match y case YLoad => 7 case YTime => 6 case YTest(_) => 5 case YStore => 4)
    case NotWanted => 4
    case OpenCall => 30
    case Opening => 29
    case CheckPrints => 28
    case EmptyClose => 21
    case Exit => 1
    case Ended => 0
  }

  function IdentifyDistance(at: IdentifyAt): nat {
    match at
    case SetWait => 27
    case Start => 26
    case AbortPhase => 25
    case AbortYield(y) => (match y case YLoad => 24 case YTime => 23 case YTest(_) => 22 case YStore => 21)
    case AbortRunning => 434
    case Finger => 433
    case Spoiled(_) => 21
  }

  function GiveUpDistance(at: GiveUpAt): nat {
    match at
    case PauseGrace(_) => 5
    case PauseCas => 4
    case AbandonSource => 19
    case AbandonFailures => 18
    case AbandonSettle(s) => SettleDistance(s) + 3
  }

  function TouchDistance(at: TouchAt): nat {
    match at
    case TouchScreen => 28
    case TouchCas => 27
    case TouchGrace => 26
    case TouchPost => 25
    case TouchVerify => 24
    case TouchPhase => 23
    case TouchArm(a) => ArmDistance(a) + 10
  }

  function MatchDistance(at: MatchAt): nat {
    match at
    case MatchReady(waits) => if waits < PASSWORD_WAITS then 432 - 2 * waits else 32
    case MatchPhase(waits) => if waits < PASSWORD_WAITS then 431 - 2 * waits else 33
    case MatchRead => 31
    case MatchSnapshot => 30
    case MatchSource => 29
    case MatchFocus => 28
    case MatchSettle => 28
    case MatchRecheck => 27
    case MatchType => 26
    case MatchDone => 25
    case MatchIdle(s) => SettleDistance(s) + 10
  }

  function MissDistance(at: MissAt): nat {
    match at
    case MissCount => 27
    case MissSource => 26
    case MissFailures => 25
    case MissSettle(s) => SettleDistance(s) + 10
  }

  predicate Stopped(p: Poller) { p.pc.InSession? && (p.pc.session.Exit? || p.pc.session.Ended?) && !p.sessionOpen }

  /** The sensor is free and the client has been told, or the thread has ended. */
  predicate HandedOver(p: Poller, ack: bool) {
    && !Holding(p)
    && (Stopped(p) || (!ack && !(p.pc.InSession? && p.pc.session.Notify?)))
  }

  /** Polling-thread steps that may still pass until then. */
  function Distance(p: Poller, ack: bool): nat {
    if HandedOver(p, ack) then 0 else PcDistance(p.pc, p.sessionOpen, ack)
  }

  function PcDistance(pc: PollPc, sessionOpen: bool, ack: bool): nat {
    match pc
    case InSession(at) => SessionDistance(at, sessionOpen, ack)
    case InIdentify(at) => IdentifyDistance(at)
    case InGiveUp(at) => GiveUpDistance(at)
    case InTouch(at) => TouchDistance(at)
    case InMatch(at) => MatchDistance(at)
    case InMiss(at) => MissDistance(at)
  }

  const LONGEST := 434

  predicate Closer(sh: Shared, p: Poller, n: PollNext) {
    sh.yieldActive && n.sh.yieldActive ==>
      if HandedOver(p, sh.yieldAck) then HandedOver(n.p, n.sh.yieldAck)
      else Distance(n.p, n.sh.yieldAck) < Distance(p, sh.yieldAck)
  }

  lemma ArmIsCloser(sh: Shared, at: ArmAt, w: World)
    requires sh.yieldActive && ArmStep(sh, at, w).0.yieldActive
    ensures ArmDistance(at) > 0
    ensures var (sh', next, _) := ArmStep(sh, at, w);
            sh'.yieldAck == sh.yieldAck && (next.AGo? ==> ArmDistance(next.at) < ArmDistance(at))
  {
  }

  lemma SettleIsCloser(sh: Shared, at: SettleAt, w: World)
    requires sh.yieldActive && SettleStep(sh, at, w).0.yieldActive
    ensures SettleDistance(at) > 0
    ensures var (sh', next, _) := SettleStep(sh, at, w);
            sh'.yieldAck == sh.yieldAck && (next.SGo? ==> SettleDistance(next.at) < SettleDistance(at))
  {
    if at.SArm? { ArmIsCloser(sh, at.a, w); }
  }

  lemma HeadIsCloser(sh: Shared, p: Poller, at: SessionAt, w: World)
    requires p.pc == InSession(at) && PollerOk(p)
    requires at.Head? || at.Ack? || at.Notify? || at.ReadPhase? || at.Exit? || at.Ended?
    ensures Closer(sh, p, SessionStep(sh, p, at, w))
  {
    hide OpenReturns, YieldStep;
  }

  lemma WantIsCloser(sh: Shared, p: Poller, at: SessionAt, w: World)
    requires p.pc == InSession(at) && PollerOk(p)
    requires at.Want? || at.NotWanted?
    ensures Closer(sh, p, SessionStep(sh, p, at, w))
  {
    hide OpenReturns, IdentifyDistance, GiveUpDistance, TouchDistance, MatchDistance, MissDistance;
    match at
    case Want(YLoad) => case Want(YTime) => case Want(YTest(_)) => case Want(YStore) =>
    case NotWanted =>
  }

  lemma OpeningIsCloser(sh: Shared, p: Poller, at: SessionAt, w: World)
    requires p.pc == InSession(at) && PollerOk(p)
    requires at.OpenCall? || at.Opening? || at.CheckPrints? || at.EmptyClose?
    ensures Closer(sh, p, SessionStep(sh, p, at, w))
  {
    hide YieldStep, IdentifyStep, TouchDistance, MatchDistance, MissDistance;
  }

  lemma SessionIsCloser(sh: Shared, p: Poller, at: SessionAt, w: World)
    requires p.pc == InSession(at) && PollerOk(p)
    ensures Closer(sh, p, SessionStep(sh, p, at, w))
  {
    hide SessionStep, Closer;
    if at.Want? || at.NotWanted? { WantIsCloser(sh, p, at, w); }
    else if at.OpenCall? || at.Opening? || at.CheckPrints? || at.EmptyClose? { OpeningIsCloser(sh, p, at, w); }
    else { HeadIsCloser(sh, p, at, w); }
  }

  lemma AnsweredIsNear(sh: Shared, p: Poller, answer: Answer)
    requires p.agentOpen && p.deviceHeld && p.sessionOpen
    ensures var n := Answered(sh, p, answer);
            && n.sh == sh && n.p.deviceHeld && n.p.sessionOpen
            && PcDistance(n.p.pc, true, sh.yieldAck) <= if answer == Match || answer == NoMatch then 432 else 21
  {
  }

  lemma SpoiledIsCloser(sh: Shared, p: Poller, answer: Answer)
    requires p.pc == InIdentify(Spoiled(answer)) && PollerOk(p)
    ensures Closer(sh, p, SpoiledStep(sh, p, answer))
  {
    hide TouchDistance, MatchDistance, MissDistance;
  }

  lemma AbortIsCloser(sh: Shared, p: Poller, at: IdentifyAt, w: World)
    requires p.pc == InIdentify(at) && PollerOk(p) && at.AbortYield?
    ensures Closer(sh, p, IdentifyStep(sh, p, at, w))
  {
    hide Answered, SpoiledStep, SessionDistance, GiveUpDistance, TouchDistance, MatchDistance, MissDistance;
    AnsweredIsNear(YieldStep(sh, at.y).0, p, Aborted);
  }

  lemma IdentifyIsCloser(sh: Shared, p: Poller, at: IdentifyAt, w: World)
    requires p.pc == InIdentify(at) && PollerOk(p)
    ensures Closer(sh, p, IdentifyStep(sh, p, at, w))
  {
    hide Answered, SpoiledStep, YieldStep, SessionDistance, GiveUpDistance, TouchDistance, MatchDistance, MissDistance;
    if at.AbortYield? { AbortIsCloser(sh, p, at, w); }
    if at.Spoiled? { SpoiledIsCloser(sh, p, at.answer); }
    AnsweredIsNear(sh, p, Match);
    AnsweredIsNear(sh, p, NoMatch);
    AnsweredIsNear(sh, p, NoFinger);
    AnsweredIsNear(sh, p, Error);
    AnsweredIsNear(sh, p, Aborted);
  }

  lemma GiveUpIsCloser(sh: Shared, p: Poller, at: GiveUpAt, w: World)
    requires p.pc == InGiveUp(at) && PollerOk(p)
    ensures Closer(sh, p, GiveUpStep(sh, p, at, w))
  {
    if at.AbandonSettle? && sh.yieldActive && SettleStep(sh, at.s, w).0.yieldActive { SettleIsCloser(sh, at.s, w); }
  }

  lemma TouchIsCloser(sh: Shared, p: Poller, at: TouchAt, w: World)
    requires p.pc == InTouch(at) && PollerOk(p)
    ensures Closer(sh, p, TouchStep(sh, p, at, w))
  {
    if at.TouchArm? && sh.yieldActive && ArmStep(sh, at.a, w).0.yieldActive { ArmIsCloser(sh, at.a, w); }
  }

  lemma MatchIdleIsCloser(sh: Shared, p: Poller, at: MatchAt, w: World)
    requires p.pc == InMatch(at) && PollerOk(p) && at.MatchIdle?
    ensures Closer(sh, p, MatchStep(sh, p, at, w))
  {
    hide SettleStep;
    if sh.yieldActive && SettleStep(sh, at.s, w).0.yieldActive { SettleIsCloser(sh, at.s, w); }
  }

  lemma MatchIsCloser(sh: Shared, p: Poller, at: MatchAt, w: World)
    requires p.pc == InMatch(at) && PollerOk(p)
    ensures Closer(sh, p, MatchStep(sh, p, at, w))
  {
    hide SettleStep;
    if at.MatchIdle? { MatchIdleIsCloser(sh, p, at, w); }
  }

  lemma MissIsCloser(sh: Shared, p: Poller, at: MissAt, w: World)
    requires p.pc == InMiss(at) && PollerOk(p)
    ensures Closer(sh, p, MissStep(sh, p, at, w))
  {
    if at.MissSettle? && sh.yieldActive && SettleStep(sh, at.s, w).0.yieldActive { SettleIsCloser(sh, at.s, w); }
  }

  lemma PollIsCloser(sh: Shared, p: Poller, w: World)
    requires PollerOk(p)
    ensures Closer(sh, p, PollStep(sh, p, w))
  {
    match p.pc
    case InSession(at) => SessionIsCloser(sh, p, at, w);
    case InIdentify(at) => IdentifyIsCloser(sh, p, at, w);
    case InGiveUp(at) => GiveUpIsCloser(sh, p, at, w);
    case InTouch(at) => TouchIsCloser(sh, p, at, w);
    case InMatch(at) => MatchIsCloser(sh, p, at, w);
    case InMiss(at) => MissIsCloser(sh, p, at, w);
  }

  function Remaining(a: Agent): nat { Distance(a.p, a.sh.yieldAck) }

  lemma PollTurnIsCloser(a: Agent, sh: Shared, w: World)
    requires PollerOk(a.p) && sh == Later(a.sh, w) && a.sh.yieldActive && PollTurn(a, sh, w).agent.sh.yieldActive
    ensures Remaining(PollTurn(a, sh, w).agent) <= if Remaining(a) == 0 then 0 else Remaining(a) - 1
  {
    PollIsCloser(sh, a.p, w);
    var n := PollStep(sh, a.p, w);
    assert Closer(sh, a.p, n);
  }

  /** The main loop cannot bring the acknowledgement back except by beginning another yield. */
  lemma MainTurnIsNoFarther(a: Agent, sh: Shared, w: World)
    requires sh == Later(a.sh, w) && !BetweenStores(a.m)
    ensures Remaining(MainTurn(a, sh, w).agent) <= Remaining(a)
  {
    MainYields(sh, a.m, w);
  }

  lemma StepIsCloser(a: Agent, c: Choice)
    requires PollerOk(a.p) && !BetweenStores(a.m) && a.sh.yieldActive && Step(a, c).agent.sh.yieldActive
    ensures Remaining(Step(a, c).agent) <= Remaining(a)
    ensures c.actor == PollThread ==> Remaining(Step(a, c).agent) <= if Remaining(a) == 0 then 0 else Remaining(a) - 1
  {
    match c.actor
    case MainLoop => MainTurnIsNoFarther(a, Later(a.sh, c.w), c.w);
    case PollThread => PollTurnIsCloser(a, Later(a.sh, c.w), c.w);
    case PasswordThread =>
  }

  /** Steps of the polling thread among schedule[i..j]. */
  function PollSteps(schedule: seq<Choice>, i: nat, j: nat): nat
    requires i <= j <= |schedule|
  {
    if i == j then 0 else PollSteps(schedule, i, j - 1) + if schedule[j - 1].actor == PollThread then 1 else 0
  }

  /** No new yield is begun between positions i and j; one that is may be waited for from its own start. */
  predicate NoNewYield(schedule: seq<Choice>, i: nat, j: nat)
    requires i <= j <= |schedule|
  {
    forall k :: i <= k < j ==> !BetweenStores(Run(schedule[..k]).m)
  }

  lemma {:induction false} RemainingFalls(schedule: seq<Choice>, i: nat, j: nat)
    requires i <= j <= |schedule| && FlagStays(schedule, i, j) && NoNewYield(schedule, i, j)
    ensures var left, steps := Remaining(Run(schedule[..i])), PollSteps(schedule, i, j);
            Remaining(Run(schedule[..j])) <= if steps <= left then left - steps else 0
    decreases j
  {
    hide Run, Remaining;
    if i < j {
      RemainingFalls(schedule, i, j - 1);
      RemainingStep(schedule, i, j - 1, j);
    }
  }

  lemma RemainingStep(schedule: seq<Choice>, i: nat, k: nat, j: nat)
    requires i <= k < j <= |schedule| && FlagStays(schedule, i, j) && NoNewYield(schedule, i, j)
    ensures var a, a' := Run(schedule[..k]), Run(schedule[..k + 1]);
            && Remaining(a') <= Remaining(a)
            && (schedule[k].actor == PollThread ==> Remaining(a') <= if Remaining(a) == 0 then 0 else Remaining(a) - 1)
  {
    var a := Run(schedule[..k]);
    assert a.sh.yieldActive && Run(schedule[..k + 1]).sh.yieldActive && !BetweenStores(a.m);
    RunObeysProtocol(schedule[..k]);
    RunOfPrefix(schedule, k);
    StepIsCloser(a, schedule[k]);
  }

  /** A yield that stays set for 434 steps of the polling thread is honoured: by then the sensor is free, and if the
      notification was due it has been sent in between, unless the agent is shutting down, which frees the sensor
      too. */
  lemma YieldIsHonoured(schedule: seq<Choice>, i: nat, j: nat)
    requires i <= j <= |schedule| && FlagStays(schedule, i, j) && NoNewYield(schedule, i, j)
    requires PollSteps(schedule, i, j) >= LONGEST
    ensures var a := Run(schedule[..j]);
            && HandedOver(a.p, a.sh.yieldAck) && !a.p.deviceHeld
            && (Due(Run(schedule[..i])) > 0 ==>
                  Stopped(a.p) || Count(Trace(schedule[..j]), TOLD) > Count(Trace(schedule[..i]), TOLD))
  {
    hide Step, Run, Trace;
    DistanceIsBounded(Run(schedule[..i]).p, Run(schedule[..i]).sh.yieldAck);
    RemainingFalls(schedule, i, j);
    RunObeysProtocol(schedule[..j]);
    NothingRemains(Run(schedule[..j]).p, Run(schedule[..j]).sh.yieldAck);
    if Due(Run(schedule[..i])) > 0 { DueIsSaid(schedule, i, j); }
  }

  lemma DistanceIsBounded(p: Poller, ack: bool)
    ensures Distance(p, ack) <= LONGEST
  {
  }

  lemma NothingRemains(p: Poller, ack: bool)
    requires PollerOk(p) && Distance(p, ack) == 0
    ensures HandedOver(p, ack)
  {
  }
}
