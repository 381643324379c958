/** The time-out of a yield. `yield_is_active` tests the deadline in one step and lowers the flag in a later
    one, so a thread that has already decided can lower the flag of a yield begun in between. What follows says
    exactly when a new yield is safe from that, and that the unsafe case can be reached. */
module LockAgentTimeout {
  import opened Options
  import opened LockAgent
  import opened LockAgentYield

  // ---------- which yield_is_active call, if any, a thread is in ----------

  function ArmTest(at: ArmAt): Option<YieldAt> { if at.AYield? then Some(at.y) else None }

  function SettleTest(at: SettleAt): Option<YieldAt> { if at.SArm? then ArmTest(at.a) else None }

  function TriggerTest(at: TriggerAt): Option<YieldAt> {
    if at.TYield? then Some(at.y) else if at.TSettle? || at.TNoThread? then SettleTest(at.s) else None
  }

  function MainTest(m: Main): Option<YieldAt> {
    match m.pc
    case InLoop(_) => None
    case Arming(a) => ArmTest(a)
    case Triggering(t, _) => TriggerTest(t)
    case Unlocking(_) => None
    case OnYield(r) => if r.EndArm? then ArmTest(r.a) else None
    case OnTick(k) => if k.TickHeal? then ArmTest(k.a) else None
  }

  function PollTest(p: Poller): Option<YieldAt> {
    match p.pc
    case InSession(at) => if at.Want? then Some(at.y) else None
    case InIdentify(at) => if at.AbortYield? then Some(at.y) else None
    case InGiveUp(at) => if at.AbandonSettle? then SettleTest(at.s) else None
    case InTouch(at) => if at.TouchArm? then ArmTest(at.a) else None
    case InMatch(at) => if at.MatchIdle? then SettleTest(at.s) else None
    case InMiss(at) => if at.MissSettle? then SettleTest(at.s) else None
  }

  /** The thread has found the deadline passed and will lower the flag with its next step. */
  predicate Decided(test: Option<YieldAt>) { test.Some? && test.value.YStore? }

  /** A time read for the test lies in the past. */
  predicate TimeOk(sh: Shared, test: Option<YieldAt>) {
    test.Some? && test.value.YTest? ==> test.value.now <= sh.clock
  }

  /** One step of a thread, seen through its call of yield_is_active. */
  predicate TestStep(sh: Shared, before: Option<YieldAt>, sh': Shared, after: Option<YieldAt>) {
    && sh'.clock == sh.clock
    && (sh.yieldActive && !sh'.yieldActive ==> Decided(before))
    && (Decided(before) ==> !sh'.yieldActive)
    && (Decided(after) ==> before.Some? && before.value.YTest? && sh.yieldDeadline <= before.value.now)
    && (after.Some? && after.value.YTest? ==> after.value.now == sh.clock)
  }

  lemma ArmTests(sh: Shared, at: ArmAt, w: World)
    ensures var (sh', next, _) := ArmStep(sh, at, w);
            TestStep(sh, ArmTest(at), sh', if next.AGo? then ArmTest(next.at) else None)
  {
  }

  lemma SettleTests(sh: Shared, at: SettleAt, w: World)
    ensures var (sh', next, _) := SettleStep(sh, at, w);
            TestStep(sh, SettleTest(at), sh', if next.SGo? then SettleTest(next.at) else None)
  {
    hide ArmStep;
    if at.SArm? { ArmTests(sh, at.a, w); }
  }

  lemma TriggerTests(sh: Shared, at: TriggerAt, source: Source, w: World)
    ensures var (sh', next, _) := TriggerStep(sh, at, source, w);
            TestStep(sh, TriggerTest(at), sh', if next.TGo? then TriggerTest(next.at) else None)
  {
    hide SettleStep;
    if at.TSettle? || at.TNoThread? { SettleTests(sh, at.s, w); }
  }

  predicate MainTestStep(sh: Shared, m: Main, n: MainNext) { TestStep(sh, MainTest(m), n.sh, MainTest(n.m)) }

  lemma YieldRequestTests(sh: Shared, m: Main, at: YieldRequestAt, w: World)
    requires m.pc == OnYield(at) && !at.EndExchange?
    ensures MainTestStep(sh, m, YieldRequestStep(sh, m, at, w))
    ensures !at.BeginDeadline? ==> YieldRequestStep(sh, m, at, w).sh.yieldDeadline == sh.yieldDeadline
  {
    hide ArmStep;
    if at.EndArm? { ArmTests(sh, at.a, w); ArmOnlyLowers(sh, at.a, w); }
  }

  lemma TickTests(sh: Shared, m: Main, at: TickAt, w: World)
    requires m.pc == OnTick(at)
    ensures MainTestStep(sh, m, TickStep(sh, m, at, w))
    ensures TickStep(sh, m, at, w).sh.yieldDeadline == sh.yieldDeadline
  {
    hide ArmStep;
    if at.TickHeal? { ArmTests(sh, at.a, w); ArmOnlyLowers(sh, at.a, w); }
  }

  lemma LoopTests(sh: Shared, m: Main, at: LoopAt, w: World)
    requires m.pc == InLoop(at)
    ensures MainTestStep(sh, m, LoopStep(sh, m, at, w))
    ensures LoopStep(sh, m, at, w).sh.yieldDeadline == sh.yieldDeadline
  {
  }

  lemma UnlockTests(sh: Shared, at: UnlockAt)
    ensures var sh' := UnlockStep(sh, at).0;
            sh'.clock == sh.clock && sh'.yieldActive == sh.yieldActive && sh'.yieldDeadline == sh.yieldDeadline
  {
  }

  predicate EndsYield(m: Main) { m.pc.OnYield? && m.pc.r.EndExchange? }

  predicate SetsDeadline(m: Main) { m.pc.OnYield? && m.pc.r.BeginDeadline? }

  lemma MainTests(sh: Shared, m: Main, w: World)
    requires !EndsYield(m)
    ensures MainTestStep(sh, m, MainStep(sh, m, w))
    ensures !SetsDeadline(m) ==> MainStep(sh, m, w).sh.yieldDeadline == sh.yieldDeadline
  {
    hide ArmStep, TriggerStep, UnlockStep, LoopStep, TickStep, YieldRequestStep;
    match m.pc
    case InLoop(at) => LoopTests(sh, m, at, w);
    case Arming(a) => ArmTests(sh, a, w); ArmOnlyLowers(sh, a, w);
    case Triggering(t, source) => TriggerTests(sh, t, source, w); TriggerOnlyLowers(sh, t, source, w);
    case Unlocking(u) => UnlockTests(sh, u);
    case OnYield(at) => YieldRequestTests(sh, m, at, w);
    case OnTick(at) => TickTests(sh, m, at, w);
  }

  predicate PollTestStep(sh: Shared, p: Poller, n: PollNext) {
    TestStep(sh, PollTest(p), n.sh, PollTest(n.p)) && n.sh.yieldDeadline == sh.yieldDeadline
  }

  lemma WantTests(sh: Shared, p: Poller, at: SessionAt, w: World)
    requires p.pc == InSession(at) && at.Want?
    ensures PollTestStep(sh, p, SessionStep(sh, p, at, w))
  {
    hide OpenReturns, CloseSession, YieldStep, TestStep;
    YieldTests(sh, at.y);
  }

  lemma OpeningTests(sh: Shared, p: Poller, at: SessionAt, w: World)
    requires p.pc == InSession(at) && at.Opening?
    ensures PollTestStep(sh, p, SessionStep(sh, p, at, w))
  {
    hide YieldStep, CloseSession;
  }

  lemma SessionTests(sh: Shared, p: Poller, at: SessionAt, w: World)
    requires p.pc == InSession(at)
    ensures PollTestStep(sh, p, SessionStep(sh, p, at, w))
  {
    hide YieldStep, OpenReturns;
    if at.Want? { WantTests(sh, p, at, w); }
    if at.Opening? { OpeningTests(sh, p, at, w); }
  }

  lemma AbortTests(sh: Shared, p: Poller, at: IdentifyAt, w: World)
    requires p.pc == InIdentify(at) && at.AbortYield?
    ensures PollTestStep(sh, p, IdentifyStep(sh, p, at, w))
  {
    hide Answered, SpoiledStep, YieldStep, TestStep;
    AbortedDoesNotTest(YieldStep(sh, at.y).0, p);
    YieldTests(sh, at.y);
  }

  lemma YieldTests(sh: Shared, at: YieldAt)
    ensures var (sh', next) := YieldStep(sh, at);
            && TestStep(sh, Some(at), sh', if next.YGo? then Some(next.at) else None)
            && sh'.yieldDeadline == sh.yieldDeadline
  {
  }

  lemma AbortedDoesNotTest(sh: Shared, p: Poller)
    ensures var n := Answered(sh, p, Aborted); n.sh == sh && PollTest(n.p) == None
  {
  }

  lemma IdentifyTests(sh: Shared, p: Poller, at: IdentifyAt, w: World)
    requires p.pc == InIdentify(at)
    ensures PollTestStep(sh, p, IdentifyStep(sh, p, at, w))
  {
    hide Answered, SpoiledStep, YieldStep;
    if at.AbortYield? { AbortTests(sh, p, at, w); } else { AnswersDoNotTest(sh, p); }
  }

  lemma AnswersDoNotTest(sh: Shared, p: Poller)
    ensures forall answer :: var n := Answered(sh, p, answer); n.sh == sh && PollTest(n.p) == None
    ensures forall answer :: var n := SpoiledStep(sh, p, answer); n.sh == sh && PollTest(n.p) == None
  {
  }

  lemma GiveUpTests(sh: Shared, p: Poller, at: GiveUpAt, w: World)
    requires p.pc == InGiveUp(at)
    ensures PollTestStep(sh, p, GiveUpStep(sh, p, at, w))
  {
    hide SettleStep;
    if at.AbandonSettle? { SettleTests(sh, at.s, w); SettleOnlyLowers(sh, at.s, w); }
  }

  lemma TouchArmTests(sh: Shared, p: Poller, at: TouchAt, w: World)
    requires p.pc == InTouch(at) && at.TouchArm?
    ensures PollTestStep(sh, p, TouchStep(sh, p, at, w))
  {
    hide ArmStep, TestStep;
    ArmTests(sh, at.a, w);
    ArmOnlyLowers(sh, at.a, w);
  }

  lemma TouchElseTests(sh: Shared, p: Poller, at: TouchAt, w: World)
    requires p.pc == InTouch(at) && !at.TouchArm?
    ensures PollTestStep(sh, p, TouchStep(sh, p, at, w))
  {
    hide ArmStep, PollTest;
    NotTesting(p);
    NotTesting(TouchStep(sh, p, at, w).p);
  }

  /** Handling a touch asks for the yield flag only inside an arming, and an arming starts with another question. */
  lemma NotTesting(p: Poller)
    requires || (p.pc.InSession? && p.pc.session.Head?)
             || (p.pc.InTouch? && (!p.pc.touch.TouchArm? || p.pc.touch.a.AEnabled?))
    ensures PollTest(p) == None
  {
  }

  lemma TouchTests(sh: Shared, p: Poller, at: TouchAt, w: World)
    requires p.pc == InTouch(at)
    ensures PollTestStep(sh, p, TouchStep(sh, p, at, w))
  {
    hide TouchStep, PollTestStep;
    if at.TouchArm? { TouchArmTests(sh, p, at, w); } else { TouchElseTests(sh, p, at, w); }
  }

  lemma MatchTests(sh: Shared, p: Poller, at: MatchAt, w: World)
    requires p.pc == InMatch(at)
    ensures PollTestStep(sh, p, MatchStep(sh, p, at, w))
  {
    hide SettleStep;
    if at.MatchIdle? { SettleTests(sh, at.s, w); SettleOnlyLowers(sh, at.s, w); }
  }

  lemma MissTests(sh: Shared, p: Poller, at: MissAt, w: World)
    requires p.pc == InMiss(at)
    ensures PollTestStep(sh, p, MissStep(sh, p, at, w))
  {
    hide SettleStep;
    if at.MissSettle? { SettleTests(sh, at.s, w); SettleOnlyLowers(sh, at.s, w); }
  }

  lemma PollTests(sh: Shared, p: Poller, w: World)
    ensures PollTestStep(sh, p, PollStep(sh, p, w))
  {
    match p.pc
    case InSession(at) => SessionTests(sh, p, at, w);
    case InIdentify(at) => IdentifyTests(sh, p, at, w);
    case InGiveUp(at) => GiveUpTests(sh, p, at, w);
    case InTouch(at) => TouchTests(sh, p, at, w);
    case InMatch(at) => MatchTests(sh, p, at, w);
    case InMiss(at) => MissTests(sh, p, at, w);
  }

  // ---------- whole runs ----------

  predicate TimesOk(a: Agent) { TimeOk(a.sh, MainTest(a.m)) && TimeOk(a.sh, PollTest(a.p)) }

  /** The flag is set, its deadline is `deadline`, and no thread has decided to lower it. */
  predicate Safe(a: Agent, deadline: int) {
    && a.sh.yieldActive && a.sh.yieldDeadline == deadline
    && !Decided(MainTest(a.m)) && !Decided(PollTest(a.p))
  }

  lemma MainTurnKeepsSafe(a: Agent, sh: Shared, w: World, deadline: int)
    requires sh == Later(a.sh, w) && !EndsYield(a.m) && TimesOk(a)
    ensures var a' := MainTurn(a, sh, w).agent;
            && TimesOk(a') && a'.sh.clock == sh.clock
            && (Safe(a, deadline) && !SetsDeadline(a.m) && sh.clock < deadline ==> Safe(a', deadline))
  {
    hide MainStep;
    MainTests(sh, a.m, w);
  }

  lemma PollTurnKeepsSafe(a: Agent, sh: Shared, w: World, deadline: int)
    requires sh == Later(a.sh, w) && TimesOk(a)
    ensures var a' := PollTurn(a, sh, w).agent;
            && TimesOk(a') && a'.sh.clock == sh.clock
            && (Safe(a, deadline) && sh.clock < deadline ==> Safe(a', deadline))
  {
    hide PollStep;
    PollTests(sh, a.p, w);
  }

  lemma EndTurnKeepsTimes(a: Agent, sh: Shared, w: World)
    requires sh == Later(a.sh, w) && EndsYield(a.m) && TimesOk(a)
    ensures TimesOk(MainTurn(a, sh, w).agent)
  {
  }

  lemma StepKeepsTimes(a: Agent, c: Choice)
    requires TimesOk(a)
    ensures TimesOk(Step(a, c).agent)
  {
    hide MainTurn, PollTurn;
    match c.actor
    case MainLoop =>
      if EndsYield(a.m) { EndTurnKeepsTimes(a, Later(a.sh, c.w), c.w); }
      else { MainTurnKeepsSafe(a, Later(a.sh, c.w), c.w, 0); }
    case PollThread => PollTurnKeepsSafe(a, Later(a.sh, c.w), c.w, 0);
    case PasswordThread =>
  }

  lemma {:induction false} RunKeepsTimes(schedule: seq<Choice>)
    ensures TimesOk(Run(schedule))
  {
    hide Step;
    if schedule != [] {
      RunKeepsTimes(schedule[..|schedule| - 1]);
      StepKeepsTimes(Run(schedule[..|schedule| - 1]), schedule[|schedule| - 1]);
    }
  }

  lemma StepKeepsSafe(a: Agent, c: Choice, deadline: int)
    requires TimesOk(a) && Safe(a, deadline) && !EndsYield(a.m) && !SetsDeadline(a.m)
    requires Step(a, c).agent.sh.clock < deadline
    ensures Safe(Step(a, c).agent, deadline)
  {
    hide MainTurn, PollTurn;
    match c.actor
    case MainLoop => MainTurnKeepsSafe(a, Later(a.sh, c.w), c.w, deadline);
    case PollThread => PollTurnKeepsSafe(a, Later(a.sh, c.w), c.w, deadline);
    case PasswordThread =>
  }

  /** A continuation of a run in which the client neither ends the yield nor begins another, and whose last
      state is still before the deadline of the yield now running. */
  predicate Undisturbed(schedule: seq<Choice>, tail: seq<Choice>) {
    && (forall k :: 0 <= k < |tail| ==>
        !EndsYield(Run(schedule + tail[..k]).m) && !SetsDeadline(Run(schedule + tail[..k]).m))
    && Run(schedule + tail).sh.clock < Run(schedule).sh.yieldDeadline
  }

  lemma StepTakesTime(a: Agent, c: Choice)
    ensures a.sh.clock <= Step(a, c).agent.sh.clock
  {
    hide MainStep, PollStep;
    var sh := Later(a.sh, c.w);
    match c.actor
    case PollThread => PollTests(sh, a.p, c.w);
    case MainLoop => if EndsYield(a.m) { EndTakesNoTime(sh, a.m, c.w); } else { MainTests(sh, a.m, c.w); }
    case PasswordThread =>
  }

  lemma EndTakesNoTime(sh: Shared, m: Main, w: World)
    requires EndsYield(m)
    ensures MainStep(sh, m, w).sh.clock == sh.clock
  {
  }

  lemma {:induction false} SafeStaysSafe(schedule: seq<Choice>, tail: seq<Choice>)
    requires Undisturbed(schedule, tail)
    requires Safe(Run(schedule), Run(schedule).sh.yieldDeadline)
    ensures Safe(Run(schedule + tail), Run(schedule).sh.yieldDeadline)
    decreases |tail|
  {
    hide Step, Safe;
    if tail == [] {
      assert schedule + tail == schedule;
    } else {
      var front, c := tail[..|tail| - 1], tail[|tail| - 1];
      var a := Run(schedule + front);
      assert (schedule + tail)[..|schedule + tail| - 1] == schedule + front;
      assert Run(schedule + tail) == Step(a, c).agent;
      StepTakesTime(a, c);
      assert forall k :: 0 <= k < |front| ==> front[..k] == tail[..k];
      SafeStaysSafe(schedule, front);
      RunKeepsTimes(schedule + front);
      StepKeepsSafe(a, c, Run(schedule).sh.yieldDeadline);
    }
  }

  lemma DecidedLowers(a: Agent, w: World)
    requires Decided(PollTest(a.p))
    ensures !Step(a, Choice(PollThread, w)).agent.sh.yieldActive
    ensures w.delay == 0 ==> Step(a, Choice(PollThread, w)).agent.sh.clock == a.sh.clock
  {
    hide PollStep;
    PollTests(Later(a.sh, w), a.p, w);
  }

  const CALM := World(0, true, true, true, false, true, false, true, true, true, true, true, NoRequest,
                      Opened, 1, Nothing)

  /** While the begin handler is between its two stores the yield it has just set survives every undisturbed
      continuation if and only if the polling thread is not already past the deadline test of an older one. */
  lemma YieldSurvivesIff(schedule: seq<Choice>)
    requires var a := Run(schedule);
             BetweenStores(a.m) && a.sh.yieldActive && a.sh.clock < a.sh.yieldDeadline
    ensures (forall tail :: Undisturbed(schedule, tail) ==> Run(schedule + tail).sh.yieldActive)
            <==> !Decided(PollTest(Run(schedule).p))
  {
    hide Step;
    var a := Run(schedule);
    if Decided(PollTest(a.p)) {
      var c := Choice(PollThread, CALM);
      assert (schedule + [c])[..|schedule|] == schedule && schedule + [c][..0] == schedule;
      DecidedLowers(a, CALM);
      assert Undisturbed(schedule, [c]) && !Run(schedule + [c]).sh.yieldActive;
    } else {
      forall tail | Undisturbed(schedule, tail) ensures Run(schedule + tail).sh.yieldActive {
        SafeStaysSafe(schedule, tail);
      }
    }
  }

  // ---------- the unsafe case is reachable ----------

  const MAIN := Choice(MainLoop, CALM)
  const POLL := Choice(PollThread, CALM)
  const BEGIN := Choice(MainLoop, CALM.(request := BeginYield))
  const WAIT := Choice(PollThread, CALM.(delay := YIELD_TIMEOUT))

  predicate NeverEnds(schedule: seq<Choice>) { forall c :: c in schedule ==> c.w.request != EndYield }

  lemma Push(schedule: seq<Choice>, c: Choice) returns (longer: seq<Choice>)
    requires NeverEnds(schedule) && c.w.request != EndYield
    ensures Run(longer) == Step(Run(schedule), c).agent && NeverEnds(longer)
  {
    hide Step;
    longer := schedule + [c];
    assert longer[..|schedule|] == schedule;
  }

  function StartAt(at: ArmAt): Agent { START.(m := START.m.(pc := Arming(at))) }

  lemma ArmsOneStep(s: seq<Choice>, at: ArmAt, next: ArmAt) returns (t: seq<Choice>)
    requires Run(s) == StartAt(at) && NeverEnds(s)
    requires ArmStep(START.sh, at, CALM) == (START.sh, AGo(next), None)
    ensures Run(t) == StartAt(next) && NeverEnds(t)
  {
    hide Step, Run, ArmStep, Later;
    t := Push(s, MAIN);
    ArmTurn(StartAt(at), at, CALM);
    NoDelay();
  }

  lemma NoDelay()
    ensures Later(START.sh, CALM) == START.sh
  {
  }

  lemma ArmTurn(a: Agent, at: ArmAt, w: World)
    requires a.m.pc == Arming(at)
    ensures var (sh, next, _) := ArmStep(Later(a.sh, w), at, w);
            next.AGo? ==> Step(a, Choice(MainLoop, w)).agent == Agent(sh, a.m.(pc := Arming(next.at)), a.p)
  {
    hide PollStep, ArmStep, TriggerStep, UnlockStep, LoopStep, TickStep, YieldRequestStep, Later;
  }

  lemma StartsEmpty()
    ensures Run([]) == StartAt(AEnabled)
  {
    hide Step;
  }

  /** Touch to Lock is armed at start-up. */
  lemma StartArmed() returns (s: seq<Choice>)
    ensures Run(s) == Agent(START.sh.(phase := LockArmed), Main(LOOP, 0, 0), START.p) && NeverEnds(s)
  {
    hide Run;
    StartsEmpty();
    s := [];
    s := ArmsOneStep(s, AEnabled, AYield(YLoad));
    s := ArmsOneStep(s, AYield(YLoad), AOs);
    s := ArmsOneStep(s, AOs, AScanning);
    s := ArmsOneStep(s, AScanning, AGrace);
    s := ArmsOneStep(s, AGrace, AScreen);
    s := ArmsOneStep(s, AScreen, ASensor);
    s := ArmsOneStep(s, ASensor, ARead);
    s := ArmsOneStep(s, ARead, ACas);
    s := ArmsAtLast(s);
  }

  lemma ArmsAtLast(s: seq<Choice>) returns (t: seq<Choice>)
    requires Run(s) == StartAt(ACas) && NeverEnds(s)
    ensures Run(t) == Agent(START.sh.(phase := LockArmed), Main(LOOP, 0, 0), START.p) && NeverEnds(t)
  {
    hide PollStep, Run;
    t := Push(s, MAIN);
  }

  /** The client begins a yield and the handler runs to its end. */
  lemma BeginsYield(s: seq<Choice>) returns (t: seq<Choice>)
    requires Run(s).m.pc == LOOP && NeverEnds(s)
    ensures NeverEnds(t)
    ensures var sh := Run(s).sh;
            Run(t)
            == Run(s).(sh := sh.(yieldDeadline := sh.clock + YIELD_TIMEOUT, yieldActive := true, yieldAck := true,
                                        phase := if sh.phase == LockArmed then Idle else sh.phase))
  {
    hide PollStep, Run;
    t := Push(s, BEGIN);
    t := Push(t, MAIN);
    t := Push(t, MAIN);
    t := Push(t, MAIN);
    t := Push(t, MAIN);
    t := Push(t, MAIN);
  }

  /** The polling thread reads LOCK_ARMED and is about to ask whether a yield is active. */
  lemma Wants(s: seq<Choice>) returns (t: seq<Choice>)
    requires Run(s).p == START.p && Run(s).sh.running && !Run(s).sh.yieldAck && Run(s).sh.phase == LockArmed
             && NeverEnds(s)
    ensures NeverEnds(t) && Run(t) == Run(s).(p := START.p.(pc := InSession(Want(YLoad)), st := LockArmed))
  {
    hide MainStep, Run;
    t := Push(s, POLL);
    t := Push(t, POLL);
    t := Push(t, POLL);
  }

  /** The yield runs into its time-out, and the polling thread finds out. */
  lemma TimesOut(s: seq<Choice>) returns (t: seq<Choice>)
    requires var a := Run(s);
             a.p.pc == InSession(Want(YLoad)) && a.sh.yieldActive && a.sh.yieldDeadline <= a.sh.clock + YIELD_TIMEOUT
    requires NeverEnds(s)
    ensures NeverEnds(t)
    ensures Run(t) == Run(s).(p := Run(s).p.(pc := InSession(Want(YStore))), sh := Later(Run(s).sh, WAIT.w))
  {
    hide MainStep, Run;
    t := Push(s, POLL);
    t := Push(t, WAIT);
    t := Push(t, POLL);
  }

  /** It lowers the flag and opens a session. */
  lemma TakesSensor(s: seq<Choice>) returns (t: seq<Choice>)
    requires Run(s).p.pc == InSession(Want(YStore)) && !Run(s).p.sessionOpen && !Run(s).p.agentOpen && NeverEnds(s)
    ensures NeverEnds(t) && Run(t).m == Run(s).m && Run(t).sh == Run(s).sh.(yieldActive := false) && Run(t).p.deviceHeld
  {
    hide MainStep, Run;
    t := Push(s, POLL);
    t := Push(t, POLL);
  }

  /** The client's view of a yield is not guaranteed: there is a run in which the client begins a yield, never
      ends one, the handler has finished, the deadline has not come, and the agent holds the sensor. */
  lemma YieldCanBeLost() returns (s: seq<Choice>)
    ensures var a := Run(s);
            && NeverEnds(s)
            && a.m.pc == LOOP && a.sh.yieldAck && a.sh.clock < a.sh.yieldDeadline
            && !a.sh.yieldActive && a.p.deviceHeld
  {
    hide Step, Run;
    s := StartArmed();
    s := Wants(s);
    s := BeginsYield(s);
    s := TimesOut(s);
    s := BeginsYield(s);
    s := TakesSensor(s);
  }
}
