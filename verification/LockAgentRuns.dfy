/** What holds of every run of the lock agent, whatever the interleaving, the clock, the system and the
    sensor do. */
module LockAgentRuns {
  import opened Options
  import opened LockAgent
  import opened LockAgentTrace

  // ---------- the polling thread obeys the session API ----------

  /** Program points at which the thread's own flag must be up, and at which it must be down. */
  predicate NeedsSession(pc: PollPc) { pc.InIdentify? || pc.InTouch? || pc.InMatch? || pc.InMiss? }

  predicate NeedsNoSession(pc: PollPc) {
    || pc.InGiveUp?
    || (pc.InSession? && (pc.session.Notify? || pc.session.OpenCall? || pc.session.Opening? || pc.session.CheckPrints?
                          || pc.session.EmptyClose? || pc.session.Ended?))
  }

  predicate Probing(pc: PollPc) { pc.InSession? && (pc.session.CheckPrints? || pc.session.EmptyClose?) }

  predicate OpeningNow(pc: PollPc) { pc.InSession? && pc.session.Opening? }

  predicate ToLock(pc: PollPc) {
    pc.InTouch? && (pc.touch.TouchScreen? || pc.touch.TouchCas? || pc.touch.TouchGrace? || pc.touch.TouchPost?)
  }

  predicate BeforeReread(pc: PollPc) {
    pc.InMatch? && (pc.hit.MatchReady? || pc.hit.MatchPhase? || pc.hit.MatchRead?)
  }

  predicate Reread(pc: PollPc) {
    pc.InMatch? && !BeforeReread(pc) && !pc.hit.MatchDone? && !pc.hit.MatchIdle?
  }

  /** The thread's locals agree with the session API's own state at every program point. */
  predicate PollerOk(p: Poller) {
    && (NeedsSession(p.pc) ==> p.sessionOpen && p.st != Idle)
    && (NeedsNoSession(p.pc) ==> !p.sessionOpen)
    && p.agentOpen == (p.sessionOpen || Probing(p.pc))
    && p.deviceHeld == (p.agentOpen || OpeningNow(p.pc))
    && (p.pc.InSession?
        && (p.pc.session.Want? || p.pc.session.OpenCall? || p.pc.session.Opening? || p.pc.session.CheckPrints?)
        ==> p.st != Idle)
    && (p.pc.InTouch? ==> p.st == LockArmed)
    && (p.pc.InMatch? || p.pc.InMiss? ==> p.st == Polling)
  }

  predicate MonitorOk(p: Poller, mon: Monitor) {
    && mon.Monitor?
    && mon.session == (if OpeningNow(p.pc) then Pending
                       else if p.pc.InIdentify? && p.pc.identify.Spoiled? then Unusable
                       else if p.agentOpen then Ready else Released)
    && (ToLock(p.pc) ==> mon.credit.Touched? && mon.credit.captured == LockArmed)
    && (BeforeReread(p.pc) ==> mon.credit.Touched? && mon.credit.captured == Polling)
    && (Reread(p.pc) ==> mon.credit.Confirmed?)
  }

  function After(mon: Monitor, event: Option<Event>): Monitor {
    if event.Some? then Observe(mon, event.value) else mon
  }

  /** Events of the subroutines both threads share; none of them is the monitor's business. */
  predicate Quiet(event: Option<Event>) {
    event.None? || event.value.Armed? || event.value.Disarmed? || event.value.Paused? || event.value.Preempted?
  }

  lemma SubroutinesAreQuiet(sh: Shared, w: World)
    ensures forall a :: Quiet(ArmStep(sh, a, w).2)
    ensures forall s :: Quiet(SettleStep(sh, s, w).2)
    ensures forall t, source :: Quiet(TriggerStep(sh, t, source, w).2)
    ensures forall u :: Quiet(UnlockStep(sh, u).2)
  {
  }

  lemma TickIsQuiet(sh: Shared, m: Main, at: TickAt, w: World)
    ensures Quiet(TickStep(sh, m, at, w).event)
  {
    hide ArmStep, SettleStep, TriggerStep, UnlockStep;
    SubroutinesAreQuiet(sh, w);
  }

  lemma YieldRequestIsQuiet(sh: Shared, m: Main, at: YieldRequestAt, w: World)
    ensures Quiet(YieldRequestStep(sh, m, at, w).event)
  {
    hide ArmStep, SettleStep, TriggerStep, UnlockStep;
    SubroutinesAreQuiet(sh, w);
  }

  lemma MainIsQuiet(sh: Shared, m: Main, w: World)
    ensures Quiet(MainStep(sh, m, w).event)
  {
    match m.pc
    case OnTick(at) => TickIsQuiet(sh, m, at, w);
    case OnYield(at) => YieldRequestIsQuiet(sh, m, at, w);
    case _ => SubroutinesAreQuiet(sh, w);
  }

  predicate Kept(n: PollNext, mon: Monitor) { PollerOk(n.p) && MonitorOk(n.p, After(mon, n.event)) }

  lemma SessionKeepsProtocol(sh: Shared, p: Poller, at: SessionAt, w: World, mon: Monitor)
    requires p.pc == InSession(at) && PollerOk(p) && MonitorOk(p, mon)
    ensures Kept(SessionStep(sh, p, at, w), mon)
  {
    hide OpenReturns;
    if at.Opening? { OpenReturnsKeepsProtocol(sh, p, w, mon); }
  }

  lemma OpenReturnsKeepsProtocol(sh: Shared, p: Poller, w: World, mon: Monitor)
    requires OpeningNow(p.pc) && PollerOk(p) && MonitorOk(p, mon)
    ensures Kept(OpenReturns(sh, p, w), mon)
  {
  }

  lemma IdentifyKeepsProtocol(sh: Shared, p: Poller, at: IdentifyAt, w: World, mon: Monitor)
    requires p.pc == InIdentify(at) && PollerOk(p) && MonitorOk(p, mon)
    ensures Kept(IdentifyStep(sh, p, at, w), mon)
  {
  }

  lemma GiveUpKeepsProtocol(sh: Shared, p: Poller, at: GiveUpAt, w: World, mon: Monitor)
    requires p.pc == InGiveUp(at) && PollerOk(p) && MonitorOk(p, mon)
    ensures Kept(GiveUpStep(sh, p, at, w), mon)
  {
    hide ArmStep, SettleStep, TriggerStep, UnlockStep;
    SubroutinesAreQuiet(sh, w);
  }

  lemma TouchKeepsProtocol(sh: Shared, p: Poller, at: TouchAt, w: World, mon: Monitor)
    requires p.pc == InTouch(at) && PollerOk(p) && MonitorOk(p, mon)
    ensures Kept(TouchStep(sh, p, at, w), mon)
  {
    hide ArmStep, SettleStep, TriggerStep, UnlockStep;
    SubroutinesAreQuiet(sh, w);
  }

  lemma MatchKeepsProtocol(sh: Shared, p: Poller, at: MatchAt, w: World, mon: Monitor)
    requires p.pc == InMatch(at) && PollerOk(p) && MonitorOk(p, mon)
    ensures Kept(MatchStep(sh, p, at, w), mon)
  {
    hide ArmStep, SettleStep, TriggerStep, UnlockStep;
    SubroutinesAreQuiet(sh, w);
  }

  lemma MissKeepsProtocol(sh: Shared, p: Poller, at: MissAt, w: World, mon: Monitor)
    requires p.pc == InMiss(at) && PollerOk(p) && MonitorOk(p, mon)
    ensures Kept(MissStep(sh, p, at, w), mon)
  {
    hide ArmStep, SettleStep, TriggerStep, UnlockStep;
    SubroutinesAreQuiet(sh, w);
  }

  lemma PollKeepsProtocol(sh: Shared, p: Poller, w: World, mon: Monitor)
    requires PollerOk(p) && MonitorOk(p, mon)
    ensures Kept(PollStep(sh, p, w), mon)
  {
    match p.pc
    case InSession(at) => SessionKeepsProtocol(sh, p, at, w, mon);
    case InIdentify(at) => IdentifyKeepsProtocol(sh, p, at, w, mon);
    case InGiveUp(at) => GiveUpKeepsProtocol(sh, p, at, w, mon);
    case InTouch(at) => TouchKeepsProtocol(sh, p, at, w, mon);
    case InMatch(at) => MatchKeepsProtocol(sh, p, at, w, mon);
    case InMiss(at) => MissKeepsProtocol(sh, p, at, w, mon);
  }

  predicate Agrees(n: Next, mon: Monitor) { PollerOk(n.agent.p) && MonitorOk(n.agent.p, After(mon, n.event)) }

  lemma MainTurnKeepsProtocol(a: Agent, sh: Shared, w: World, mon: Monitor)
    requires PollerOk(a.p) && MonitorOk(a.p, mon)
    ensures Agrees(MainTurn(a, sh, w), mon)
  {
    MainIsQuiet(sh, a.m, w);
  }

  lemma PollTurnKeepsProtocol(a: Agent, sh: Shared, w: World, mon: Monitor)
    requires PollerOk(a.p) && MonitorOk(a.p, mon)
    ensures Agrees(PollTurn(a, sh, w), mon)
  {
    PollKeepsProtocol(sh, a.p, w, mon);
  }

  lemma StepKeepsProtocol(a: Agent, c: Choice, mon: Monitor)
    requires PollerOk(a.p) && MonitorOk(a.p, mon)
    ensures Agrees(Step(a, c), mon)
  {
    match c.actor
    case MainLoop => MainTurnKeepsProtocol(a, Later(a.sh, c.w), c.w, mon);
    case PollThread => PollTurnKeepsProtocol(a, Later(a.sh, c.w), c.w, mon);
    case PasswordThread =>
  }

  /** Every trace of every run is accepted, and the thread's locals agree with the session API. */
  lemma {:induction false} RunObeysProtocol(schedule: seq<Choice>)
    ensures Accepted(Trace(schedule))
    ensures PollerOk(Run(schedule).p) && MonitorOk(Run(schedule).p, Watch(Trace(schedule)))
  {
    if schedule != [] {
      var before, c := schedule[..|schedule| - 1], schedule[|schedule| - 1];
      RunObeysProtocol(before);
      StepKeepsProtocol(Run(before), c, Watch(Trace(before)));
      var event := Step(Run(before), c).event;
      if event.Some? { Snoc(Trace(before), event.value); }
      else { assert Trace(before) + [] == Trace(before); }
    }
  }

  /** At every loop head the thread's `session_open` is the API's `s_agent_open`, and the thread never calls
      identify, or acts on a touch, with the session closed. */
  lemma LoopHeadsAgree(schedule: seq<Choice>)
    ensures var p := Run(schedule).p;
            && (p.pc == HEAD ==> p.sessionOpen == p.agentOpen == p.deviceHeld)
            && (NeedsSession(p.pc) ==> p.agentOpen && p.deviceHeld)
            && (p.pc == InSession(Ended) ==> !p.agentOpen && !p.deviceHeld)
  {
    RunObeysProtocol(schedule);
  }

  /** Over any run, password typings plus lock keystrokes never exceed the sensor's MATCH answers. */
  lemma ActsNeverExceedMatchesInRun(schedule: seq<Choice>)
    ensures Count(Trace(schedule), ACTS) <= Count(Trace(schedule), MATCHES)
  {
    RunObeysProtocol(schedule);
    ActsNeverExceedMatches(Trace(schedule));
  }

  // ---------- conservation of armings ----------

  /** Armings not yet accounted for: the state itself, and a lock keystroke whose compare-and-swap is done
      but which is not posted yet. */
  function OwedBy(sh: Shared, p: Poller): nat {
    (if sh.phase == LockArmed then 1 else 0)
    + if p.pc.InTouch? && (p.pc.touch.TouchGrace? || p.pc.touch.TouchPost?) then 1 else 0
  }

  function Owed(a: Agent): nat { OwedBy(a.sh, a.p) }

  function Gained(event: Option<Event>): nat { if event.Some? && event.value.Armed? then 1 else 0 }

  function Spent(event: Option<Event>): nat {
    if event.Some? && (event.value.LockKey? || event.value.Disarmed? || event.value.Paused? || event.value.Preempted?)
    then 1 else 0
  }

  predicate Balanced(before: Phase, event: Option<Event>, after: Phase) {
    Gained(event) + (if before == LockArmed then 1 else 0) == Spent(event) + if after == LockArmed then 1 else 0
  }

  lemma ArmBalances(sh: Shared, at: ArmAt, w: World)
    ensures var (sh', _, e) := ArmStep(sh, at, w); Balanced(sh.phase, e, sh'.phase)
  {
  }

  lemma SettleBalances(sh: Shared, at: SettleAt, w: World)
    ensures var (sh', _, e) := SettleStep(sh, at, w); Balanced(sh.phase, e, sh'.phase)
  {
    if at.SArm? { ArmBalances(sh, at.a, w); }
  }

  lemma TriggerBalances(sh: Shared, at: TriggerAt, source: Source, w: World)
    ensures var (sh', _, e) := TriggerStep(sh, at, source, w); Balanced(sh.phase, e, sh'.phase)
  {
    if at.TSettle? || at.TNoThread? { SettleBalances(sh, at.s, w); }
  }

  lemma TickBalances(sh: Shared, m: Main, at: TickAt, w: World)
    ensures var n := TickStep(sh, m, at, w); Balanced(sh.phase, n.event, n.sh.phase)
  {
    if at.TickHeal? { ArmBalances(sh, at.a, w); }
  }

  lemma YieldRequestBalances(sh: Shared, m: Main, at: YieldRequestAt, w: World)
    ensures var n := YieldRequestStep(sh, m, at, w); Balanced(sh.phase, n.event, n.sh.phase)
  {
    if at.EndArm? { ArmBalances(sh, at.a, w); }
  }

  lemma LoopBalances(sh: Shared, m: Main, at: LoopAt, w: World)
    ensures var n := LoopStep(sh, m, at, w); Balanced(sh.phase, n.event, n.sh.phase)
  {
  }

  lemma UnlockBalances(sh: Shared, at: UnlockAt)
    ensures var (sh', _, e) := UnlockStep(sh, at); Balanced(sh.phase, e, sh'.phase)
  {
  }

  lemma MainBalances(sh: Shared, m: Main, w: World)
    ensures var n := MainStep(sh, m, w); Balanced(sh.phase, n.event, n.sh.phase)
  {
    match m.pc
    case Arming(a) => ArmBalances(sh, a, w);
    case Triggering(t, source) => TriggerBalances(sh, t, source, w);
    case OnTick(at) => TickBalances(sh, m, at, w);
    case OnYield(at) => YieldRequestBalances(sh, m, at, w);
    case InLoop(at) => LoopBalances(sh, m, at, w);
    case Unlocking(u) => UnlockBalances(sh, u);
  }

  predicate PollBalanced(sh: Shared, p: Poller, n: PollNext) {
    Gained(n.event) + OwedBy(sh, p) == Spent(n.event) + OwedBy(n.sh, n.p)
  }

  /** The step neither arms nor spends an arming. */
  predicate Neutral(sh: Shared, n: PollNext) {
    && n.sh.phase == sh.phase
    && (n.event.None? || OnSensor(n.event.value))
    && OwedBy(n.sh, n.p) == if n.sh.phase == LockArmed then 1 else 0
  }

  lemma SessionBalances(sh: Shared, p: Poller, at: SessionAt, w: World)
    requires p.pc == InSession(at)
    ensures Neutral(sh, SessionStep(sh, p, at, w))
  {
  }

  lemma IdentifyBalances(sh: Shared, p: Poller, at: IdentifyAt, w: World)
    requires p.pc == InIdentify(at)
    ensures Neutral(sh, IdentifyStep(sh, p, at, w))
  {
  }

  lemma GiveUpBalances(sh: Shared, p: Poller, at: GiveUpAt, w: World)
    requires p.pc == InGiveUp(at)
    ensures PollBalanced(sh, p, GiveUpStep(sh, p, at, w))
  {
    if at.AbandonSettle? { SettleBalances(sh, at.s, w); }
  }

  lemma MissBalances(sh: Shared, p: Poller, at: MissAt, w: World)
    requires p.pc == InMiss(at)
    ensures PollBalanced(sh, p, MissStep(sh, p, at, w))
  {
    if at.MissSettle? { SettleBalances(sh, at.s, w); }
  }

  lemma TouchBalances(sh: Shared, p: Poller, at: TouchAt, w: World)
    requires p.pc == InTouch(at)
    ensures PollBalanced(sh, p, TouchStep(sh, p, at, w))
  {
    hide ArmStep;
    if at.TouchArm? { ArmBalances(sh, at.a, w); }
  }

  lemma MatchBalances(sh: Shared, p: Poller, at: MatchAt, w: World)
    requires p.pc == InMatch(at)
    ensures PollBalanced(sh, p, MatchStep(sh, p, at, w))
  {
    if at.MatchIdle? { SettleBalances(sh, at.s, w); }
  }

  lemma PollBalances(sh: Shared, p: Poller, w: World)
    ensures PollBalanced(sh, p, PollStep(sh, p, w))
  {
    match p.pc
    case InSession(at) => SessionBalances(sh, p, at, w);
    case InIdentify(at) => IdentifyBalances(sh, p, at, w);
    case InGiveUp(at) => GiveUpBalances(sh, p, at, w);
    case InTouch(at) => TouchBalances(sh, p, at, w);
    case InMatch(at) => MatchBalances(sh, p, at, w);
    case InMiss(at) => MissBalances(sh, p, at, w);
  }

  predicate Conserved(a: Agent, n: Next) { Gained(n.event) + Owed(a) == Spent(n.event) + Owed(n.agent) }

  lemma MainTurnConserves(a: Agent, sh: Shared, w: World)
    requires sh.phase == a.sh.phase
    ensures Conserved(a, MainTurn(a, sh, w))
  {
    MainBalances(sh, a.m, w);
  }

  lemma PollTurnConserves(a: Agent, sh: Shared, w: World)
    requires sh.phase == a.sh.phase
    ensures Conserved(a, PollTurn(a, sh, w))
  {
    PollBalances(sh, a.p, w);
  }

  lemma StepConserves(a: Agent, c: Choice)
    ensures Conserved(a, Step(a, c))
  {
    match c.actor
    case MainLoop => MainTurnConserves(a, Later(a.sh, c.w), c.w);
    case PollThread => PollTurnConserves(a, Later(a.sh, c.w), c.w);
    case PasswordThread =>
  }

  /** In every run each arming is spent exactly once: on a lock keystroke posted or about to be posted, on a
      disarm, on a pause, on a blind store that overwrote it, or it is the state now. */
  lemma {:induction false} ArmingsAreConserved(schedule: seq<Choice>)
    ensures var t := Trace(schedule);
            Count(t, {Armed})
            == Count(t, {LockKey}) + Count(t, {Disarmed}) + Count(t, {Paused}) + Count(t, {Preempted})
              + Owed(Run(schedule))
  {
    hide Step;
    if schedule != [] {
      var before, c := schedule[..|schedule| - 1], schedule[|schedule| - 1];
      ArmingsAreConserved(before);
      StepConserves(Run(before), c);
      var event := Step(Run(before), c).event;
      if event.Some? { Snoc(Trace(before), event.value); }
      else { assert Trace(before) + [] == Trace(before); }
    }
  }

  lemma RunOfPrefix(schedule: seq<Choice>, k: nat)
    requires k < |schedule|
    ensures Run(schedule[..k + 1]) == Step(Run(schedule[..k]), schedule[k]).agent
  {
    assert schedule[..k + 1][..k] == schedule[..k];
  }
}
