/** The sensor yield: what the client is told, and what the flag in the agent guarantees. */
module LockAgentYield {
  import opened LockAgent
  import opened LockAgentRuns

  // ---------- safety ----------

  /** The polling thread holds the device, or is past its "want a session" test and about to claim it. */
  predicate Holding(p: Poller) { p.deviceHeld || (p.pc.InSession? && p.pc.session.OpenCall?) }

  predicate BetweenStores(m: Main) { m.pc.OnYield? && m.pc.r.BeginAck? }

  predicate EndingYield(m: Main) { m.pc.OnYield? && m.pc.r.EndAck? }

  /** The inductive invariant: a set flag with a held session means the acknowledgement is still due, or the
      begin handler is between its two stores. */
  predicate YieldOk(a: Agent) {
    && (a.sh.yieldActive && Holding(a.p) ==> a.sh.yieldAck || BetweenStores(a.m))
    && (EndingYield(a.m) ==> !a.sh.yieldActive)
  }

  /** Which yield variables a step of a subroutine may touch: it may lower the flag, nothing else. Nor does it stop the
      agent. */
  predicate OnlyLowers(before: Shared, after: Shared) {
    && (after.yieldActive ==> before.yieldActive)
    && after.running == before.running
    && after.yieldAck == before.yieldAck
    && after.yieldDeadline == before.yieldDeadline
  }

  lemma ArmOnlyLowers(sh: Shared, at: ArmAt, w: World)
    ensures OnlyLowers(sh, ArmStep(sh, at, w).0)
  {
  }

  lemma SettleOnlyLowers(sh: Shared, at: SettleAt, w: World)
    ensures OnlyLowers(sh, SettleStep(sh, at, w).0)
  {
    if at.SArm? { ArmOnlyLowers(sh, at.a, w); }
  }

  lemma TriggerOnlyLowers(sh: Shared, at: TriggerAt, source: Source, w: World)
    ensures OnlyLowers(sh, TriggerStep(sh, at, source, w).0)
  {
    if at.TSettle? || at.TNoThread? { SettleOnlyLowers(sh, at.s, w); }
  }

  predicate MainYieldStep(sh: Shared, m: Main, n: MainNext) {
    && (n.sh.yieldActive && !sh.yieldActive ==> BetweenStores(n.m))
    && (sh.yieldAck && !n.sh.yieldAck ==> EndingYield(m))
    && (!sh.yieldAck && n.sh.yieldAck ==> BetweenStores(m))
    && (EndingYield(n.m) ==> !n.sh.yieldActive)
    && (BetweenStores(m) ==> n.sh.yieldAck)
    && (EndingYield(m) ==> OnlyActiveKept(sh, n.sh))
    && (n.sh.running ==> sh.running)
  }

  predicate OnlyActiveKept(before: Shared, after: Shared) { after.yieldActive == before.yieldActive }

  lemma YieldRequestYields(sh: Shared, m: Main, at: YieldRequestAt, w: World)
    requires m.pc == OnYield(at)
    ensures MainYieldStep(sh, m, YieldRequestStep(sh, m, at, w))
  {
    if at.EndArm? { ArmOnlyLowers(sh, at.a, w); }
  }

  lemma TickYields(sh: Shared, m: Main, at: TickAt, w: World)
    requires m.pc == OnTick(at)
    ensures MainYieldStep(sh, m, TickStep(sh, m, at, w))
  {
    if at.TickHeal? { ArmOnlyLowers(sh, at.a, w); }
  }

  lemma LoopYields(sh: Shared, m: Main, at: LoopAt, w: World)
    requires m.pc == InLoop(at)
    ensures MainYieldStep(sh, m, LoopStep(sh, m, at, w))
  {
  }

  lemma UnlockYields(sh: Shared, at: UnlockAt)
    ensures OnlyLowers(sh, UnlockStep(sh, at).0)
  {
  }

  lemma MainYields(sh: Shared, m: Main, w: World)
    ensures MainYieldStep(sh, m, MainStep(sh, m, w))
  {
    match m.pc
    case OnYield(at) => YieldRequestYields(sh, m, at, w);
    case OnTick(at) => TickYields(sh, m, at, w);
    case InLoop(at) => LoopYields(sh, m, at, w);
    case Arming(at) => ArmOnlyLowers(sh, at, w);
    case Triggering(at, source) => TriggerOnlyLowers(sh, at, source, w);
    case Unlocking(at) => UnlockYields(sh, at);
  }

  /** What one step of the polling thread may do to the yield. */
  predicate PollYieldStep(sh: Shared, p: Poller, n: PollNext) {
    && (n.sh.yieldActive ==> sh.yieldActive)
    && (n.sh.yieldAck ==> sh.yieldAck)
    && n.sh.yieldDeadline == sh.yieldDeadline
    && (sh.yieldAck && !n.sh.yieldAck ==> !Holding(n.p))
    && (!Holding(p) && Holding(n.p) ==> !n.sh.yieldActive)
    && (n.event.Some? && n.event.value.YieldReady? ==> !Holding(p) && !Holding(n.p))
  }

  lemma SessionYields(sh: Shared, p: Poller, at: SessionAt, w: World)
    requires p.pc == InSession(at) && PollerOk(p)
    ensures PollYieldStep(sh, p, SessionStep(sh, p, at, w))
  {
  }

  lemma IdentifyYields(sh: Shared, p: Poller, at: IdentifyAt, w: World)
    requires p.pc == InIdentify(at) && PollerOk(p)
    ensures PollYieldStep(sh, p, IdentifyStep(sh, p, at, w))
  {
  }

  lemma GiveUpYields(sh: Shared, p: Poller, at: GiveUpAt, w: World)
    requires p.pc == InGiveUp(at) && PollerOk(p)
    ensures PollYieldStep(sh, p, GiveUpStep(sh, p, at, w))
  {
    if at.AbandonSettle? { SettleOnlyLowers(sh, at.s, w); }
  }

  lemma MissYields(sh: Shared, p: Poller, at: MissAt, w: World)
    requires p.pc == InMiss(at) && PollerOk(p)
    ensures PollYieldStep(sh, p, MissStep(sh, p, at, w))
  {
    if at.MissSettle? { SettleOnlyLowers(sh, at.s, w); }
  }

  lemma TouchYields(sh: Shared, p: Poller, at: TouchAt, w: World)
    requires p.pc == InTouch(at) && PollerOk(p)
    ensures PollYieldStep(sh, p, TouchStep(sh, p, at, w))
  {
    if at.TouchArm? { ArmOnlyLowers(sh, at.a, w); }
  }

  lemma MatchYields(sh: Shared, p: Poller, at: MatchAt, w: World)
    requires p.pc == InMatch(at) && PollerOk(p)
    ensures PollYieldStep(sh, p, MatchStep(sh, p, at, w))
  {
    if at.MatchIdle? { SettleOnlyLowers(sh, at.s, w); }
  }

  lemma PollYields(sh: Shared, p: Poller, w: World)
    requires PollerOk(p)
    ensures PollYieldStep(sh, p, PollStep(sh, p, w))
  {
    match p.pc
    case InSession(at) => SessionYields(sh, p, at, w);
    case InIdentify(at) => IdentifyYields(sh, p, at, w);
    case InGiveUp(at) => GiveUpYields(sh, p, at, w);
    case InMiss(at) => MissYields(sh, p, at, w);
    case InTouch(at) => TouchYields(sh, p, at, w);
    case InMatch(at) => MatchYields(sh, p, at, w);
  }

  lemma MainTurnKeepsYield(a: Agent, sh: Shared, w: World)
    requires YieldOk(a) && sh == Later(a.sh, w)
    ensures YieldOk(MainTurn(a, sh, w).agent)
  {
    MainYields(sh, a.m, w);
  }

  lemma PollTurnKeepsYield(a: Agent, sh: Shared, w: World)
    requires YieldOk(a) && PollerOk(a.p) && sh == Later(a.sh, w)
    ensures YieldOk(PollTurn(a, sh, w).agent)
  {
    PollYields(sh, a.p, w);
  }

  lemma StepKeepsYield(a: Agent, c: Choice)
    requires YieldOk(a) && PollerOk(a.p)
    ensures YieldOk(Step(a, c).agent)
  {
    match c.actor
    case MainLoop => MainTurnKeepsYield(a, Later(a.sh, c.w), c.w);
    case PollThread => PollTurnKeepsYield(a, Later(a.sh, c.w), c.w);
    case PasswordThread =>
  }

  lemma {:induction false} RunKeepsYield(schedule: seq<Choice>)
    ensures YieldOk(Run(schedule))
  {
    if schedule != [] {
      var before := schedule[..|schedule| - 1];
      RunKeepsYield(before);
      RunObeysProtocol(before);
      StepKeepsYield(Run(before), schedule[|schedule| - 1]);
    }
  }

  /** In every reachable state: once the acknowledgement of a set yield has been taken, the device is free. */
  lemma YieldExcludesSession(schedule: seq<Choice>)
    ensures var a := Run(schedule);
            a.sh.yieldActive && !a.sh.yieldAck && !BetweenStores(a.m) ==> !a.p.deviceHeld && !a.p.agentOpen
  {
    RunKeepsYield(schedule);
    RunObeysProtocol(schedule);
  }

  // ---------- what the notification promises ----------

  predicate Reports(a: Agent, c: Choice) { var e := Step(a, c).event; e.Some? && e.value.YieldReady? }

  lemma MainTurnKeepsFree(a: Agent, sh: Shared, w: World)
    ensures var n := MainTurn(a, sh, w); n.agent.p == a.p && !(n.event.Some? && n.event.value.YieldReady?)
  {
    MainIsQuiet(sh, a.m, w);
  }

  lemma PollTurnKeepsFree(a: Agent, sh: Shared, w: World)
    requires PollerOk(a.p)
    ensures var n := PollTurn(a, sh, w);
            && (!Holding(a.p) && n.agent.sh.yieldActive ==> !Holding(n.agent.p))
            && (n.event.Some? && n.event.value.YieldReady? ==> !Holding(a.p) && !Holding(n.agent.p))
  {
    PollYields(sh, a.p, w);
  }

  lemma StepKeepsFree(a: Agent, c: Choice)
    requires PollerOk(a.p)
    ensures var a' := Step(a, c).agent;
            && (!Holding(a.p) && a'.sh.yieldActive ==> !Holding(a'.p))
            && (Reports(a, c) ==> !Holding(a.p) && !Holding(a'.p))
  {
    match c.actor
    case MainLoop => MainTurnKeepsFree(a, Later(a.sh, c.w), c.w);
    case PollThread => PollTurnKeepsFree(a, Later(a.sh, c.w), c.w);
    case PasswordThread =>
  }

  /** The flag is set in every state from position i to position j of a run. */
  predicate FlagStays(schedule: seq<Choice>, i: nat, j: nat)
    requires i <= j <= |schedule|
  {
    forall k :: i <= k <= j ==> Run(schedule[..k]).sh.yieldActive
  }

  lemma FreeAt(schedule: seq<Choice>, k: nat)
    requires k < |schedule|
    ensures var a, a' := Run(schedule[..k]), Run(schedule[..k + 1]);
            && (!Holding(a.p) && a'.sh.yieldActive ==> !Holding(a'.p))
            && (Reports(a, schedule[k]) ==> !Holding(a.p) && !Holding(a'.p))
  {
    var a := Run(schedule[..k]);
    RunObeysProtocol(schedule[..k]);
    RunOfPrefix(schedule, k);
    StepKeepsFree(a, schedule[k]);
  }

  /** The yield-ready notification is sent only while no sensor session is held, and from there on no session
      is opened for as long as the flag stays set. */
  lemma {:induction false} NoSessionAfterReady(schedule: seq<Choice>, i: nat, j: nat)
    requires i < j <= |schedule|
    requires Reports(Run(schedule[..i]), schedule[i])
    requires FlagStays(schedule, i + 1, j)
    ensures !Holding(Run(schedule[..i]).p) && !Holding(Run(schedule[..j]).p)
    decreases j
  {
    hide Step;
    if i + 1 < j {
      NoSessionAfterReady(schedule, i, j - 1);
      assert Run(schedule[..j]).sh.yieldActive;
    }
    FreeAt(schedule, j - 1);
  }
}
