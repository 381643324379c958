/** The stages of an episode, as pieces from which runs are put together: a trigger, the loader, the session, a touch,
    an unlock. Each says exactly what it does to the agent, from any state it can start in. */
module LockAgentEpisode {
  import opened Options
  import opened LockAgent
  import opened LockAgentTimeout

  // ---------- one step, the clock standing still ----------

  lemma MainPush(s: seq<Choice>, w: World) returns (t: seq<Choice>)
    requires NeverEnds(s) && w.request != EndYield && w.delay == 0
    ensures NeverEnds(t)
    ensures var n := MainStep(Run(s).sh, Run(s).m, w); Run(t) == Agent(n.sh, n.m, Run(s).p)
  {
    hide PollStep, MainStep, Run;
    t := Push(s, Choice(MainLoop, w));
    assert Later(Run(s).sh, w) == Run(s).sh;
  }

  lemma PollPush(s: seq<Choice>, w: World) returns (t: seq<Choice>)
    requires NeverEnds(s) && w.request != EndYield && w.delay == 0
    ensures NeverEnds(t)
    ensures var n := PollStep(Run(s).sh, Run(s).p, w); Run(t) == Agent(n.sh, Run(s).m, n.p)
  {
    hide PollStep, MainStep, Run;
    t := Push(s, Choice(PollThread, w));
    assert Later(Run(s).sh, w) == Run(s).sh;
  }

  // ---------- a trigger ----------

  /** The setting is off, so that nothing is armed. */
  const OFF := CALM.(lockEnabled := false)

  function Waits(ticks: nat): Main { Main(LOOP, 0, ticks) }

  lemma StartsDisabled() returns (s: seq<Choice>)
    ensures Run(s) == Agent(START.sh, Waits(0), START.p) && NeverEnds(s)
  {
    hide Run, MainStep;
    StartsEmpty();
    s := MainPush([], OFF);
    StaysUnarmed(START.sh);
  }

  lemma StaysUnarmed(sh: Shared)
    ensures MainStep(sh, START.m, OFF) == MainNext(sh, Waits(0), None)
  {
  }

  function Triggers(at: TriggerAt, source: Source, ticks: nat): Main { Main(Triggering(at, source), 0, ticks) }

  const LOCKS := CALM.(request := Request.ScreenLocked)

  lemma ScreenLocks(s: seq<Choice>, ticks: nat) returns (t: seq<Choice>)
    requires Run(s).m == Waits(ticks) && Run(s).sh.phase == Idle && !Run(s).sh.yieldActive && NeverEnds(s)
    ensures Run(t) == Run(s).(sh := Run(s).sh.(lockSince := Run(s).sh.clock), m := Triggers(TSource, LockScreen, ticks))
    ensures NeverEnds(t)
  {
    hide MainStep, Run;
    t := MainPush(s, LOCKS);
    t := MainPush(t, CALM);
    t := MainPush(t, CALM);
    LockingSteps(Run(s).sh, ticks);
    t := TriggerPasses(t, LockScreen, ticks);
  }

  lemma LockingSteps(sh: Shared, ticks: nat)
    requires sh.phase == Idle
    ensures var m1, m2 := Main(InLoop(LockedRead), 0, ticks), Main(InLoop(LockedSince), 0, ticks);
            && MainStep(sh, Waits(ticks), LOCKS) == MainNext(sh, m1, None)
            && MainStep(sh, m1, CALM) == MainNext(sh, m2, None)
            && MainStep(sh, m2, CALM)
               == MainNext(sh.(lockSince := sh.clock), Triggers(TScanning, LockScreen, ticks), None)
  {
  }

  /** Scanning is on, nobody has the sensor, and it is there. */
  lemma TriggerPasses(s: seq<Choice>, source: Source, ticks: nat) returns (t: seq<Choice>)
    requires Run(s).m == Triggers(TScanning, source, ticks) && !Run(s).sh.yieldActive && NeverEnds(s)
    ensures Run(t) == Run(s).(m := Triggers(TSource, source, ticks)) && NeverEnds(t)
  {
    hide MainStep, Run;
    t := MainPush(s, CALM);
    t := MainPush(t, CALM);
    t := MainPush(t, CALM);
    PassingSteps(Run(s).sh, source, ticks);
  }

  lemma PassingSteps(sh: Shared, source: Source, ticks: nat)
    requires !sh.yieldActive
    ensures MainStep(sh, Triggers(TScanning, source, ticks), CALM)
            == MainNext(sh, Triggers(TYield(YLoad), source, ticks), None)
    ensures MainStep(sh, Triggers(TYield(YLoad), source, ticks), CALM)
            == MainNext(sh, Triggers(TSensor, source, ticks), None)
    ensures MainStep(sh, Triggers(TSensor, source, ticks), CALM) == MainNext(sh, Triggers(TSource, source, ticks), None)
  {
  }

  const TICKS := CALM.(request := TimerTick)
  const SEEN := CALM.(padlockSeen := true)

  /** The timer sees a padlock it has not seen before. */
  lemma PadlockAppears(s: seq<Choice>) returns (t: seq<Choice>)
    requires Run(s).m == Waits(0) && Run(s).sh.phase == Idle && !Run(s).sh.yieldActive && !Run(s).sh.padlockArmed
    requires NeverEnds(s)
    ensures Run(t) == Run(s).(sh := Run(s).sh.(padlockArmed := true), m := Triggers(TSource, Padlock, 1))
            && NeverEnds(t)
  {
    hide MainStep, Run;
    t := MainPush(s, TICKS);
    t := MainPush(t, CALM);
    t := MainPush(t, SEEN);
    t := MainPush(t, CALM);
    t := MainPush(t, CALM);
    SeeingSteps(Run(s).sh);
    t := TriggerPasses(t, Padlock, 1);
  }

  function Ticking(at: TickAt, ticks: nat): Main { Main(OnTick(at), 0, ticks) }

  lemma SeeingSteps(sh: Shared)
    requires sh.phase == Idle && !sh.padlockArmed
    ensures MainStep(sh, Waits(0), TICKS) == MainNext(sh, Ticking(TickRead, 0), None)
    ensures MainStep(sh, Ticking(TickRead, 0), CALM) == MainNext(sh, Ticking(TickScan, 1), None)
    ensures MainStep(sh, Ticking(TickScan, 1), SEEN) == MainNext(sh, Ticking(TickDebounce, 1), None)
    ensures MainStep(sh, Ticking(TickDebounce, 1), CALM) == MainNext(sh, Ticking(TickMark, 1), None)
    ensures MainStep(sh, Ticking(TickMark, 1), CALM)
            == MainNext(sh.(padlockArmed := true), Triggers(TScanning, Padlock, 1), None)
  {
  }

  /** What arm_polling_for_trigger leaves, its loader started. */
  function Triggered(sh: Shared, source: Source): Shared {
    sh.(source := source, passwordReady := false, failedTouches := 0, phase := Polling, loading := sh.loading + 1)
  }

  lemma EpisodeStarts(s: seq<Choice>, source: Source, ticks: nat) returns (t: seq<Choice>)
    requires Run(s).m == Triggers(TSource, source, ticks) && Run(s).sh.phase == Idle && NeverEnds(s)
    ensures Run(t) == Run(s).(sh := Triggered(Run(s).sh, source), m := Waits(ticks)) && NeverEnds(t)
  {
    hide MainStep, Run;
    t := MainPush(s, CALM);
    t := MainPush(t, CALM);
    t := MainPush(t, CALM);
    t := MainPush(t, CALM);
    t := MainPush(t, CALM);
    TriggeringSteps(Run(s).sh, source, ticks);
  }

  lemma TriggeringSteps(sh: Shared, source: Source, ticks: nat)
    requires sh.phase == Idle
    ensures var sh1 := sh.(source := source);
            var sh2 := sh1.(passwordReady := false);
            var sh3 := sh2.(failedTouches := 0);
            var sh4 := sh3.(phase := Polling);
            && MainStep(sh, Triggers(TSource, source, ticks), CALM)
               == MainNext(sh1, Triggers(TReady, source, ticks), None)
            && MainStep(sh1, Triggers(TReady, source, ticks), CALM)
               == MainNext(sh2, Triggers(TFailures, source, ticks), None)
            && MainStep(sh2, Triggers(TFailures, source, ticks), CALM)
               == MainNext(sh3, Triggers(TPolling, source, ticks), None)
            && MainStep(sh3, Triggers(TPolling, source, ticks), CALM)
               == MainNext(sh4, Triggers(TSpawn, source, ticks), None)
            && MainStep(sh4, Triggers(TSpawn, source, ticks), CALM)
               == MainNext(Triggered(sh, source), Waits(ticks), None)
  {
  }

  // ---------- the loader ----------

  const LOAD := Choice(PasswordThread, CALM)
  const RAISE := Choice(PasswordThread, CALM.(threadStarted := false))

  lemma LoaderComesIn(s: seq<Choice>) returns (t: seq<Choice>)
    requires Run(s).sh.loading > 0 && NeverEnds(s)
    ensures var sh := Run(s).sh;
            Run(t) == Run(s).(sh := sh.(loading := sh.loading - 1, loaded := sh.loaded + 1, passwordValid := true))
    ensures NeverEnds(t)
  {
    hide PollStep, MainStep, Run;
    t := Push(s, LOAD);
  }

  lemma LoaderRaisesReady(s: seq<Choice>) returns (t: seq<Choice>)
    requires Run(s).sh.loaded > 0 && NeverEnds(s)
    ensures var sh := Run(s).sh; Run(t) == Run(s).(sh := sh.(loaded := sh.loaded - 1, passwordReady := true))
    ensures NeverEnds(t)
  {
    hide PollStep, MainStep, Run;
    t := Push(s, RAISE);
  }

  // ---------- the session and a touch ----------

  const WANTING := START.p.(st := Polling, pc := InSession(OpenCall))
  const HELD := START.p.(st := Polling, sessionOpen := true, deviceHeld := true, agentOpen := true, prints := 1)

  /** An episode is on and nothing stands in its way. */
  predicate Open(sh: Shared) { sh.running && sh.phase == Polling && !sh.yieldActive && !sh.yieldAck }

  lemma WantsSession(s: seq<Choice>) returns (t: seq<Choice>)
    requires Run(s).p == START.p && Open(Run(s).sh) && NeverEnds(s)
    ensures Run(t) == Run(s).(p := WANTING) && NeverEnds(t)
  {
    hide Run, PollStep;
    t := PollPush(s, CALM);
    t := PollPush(t, CALM);
    t := PollPush(t, CALM);
    t := PollPush(t, CALM);
    WantingSteps(Run(s).sh);
  }

  lemma WantingSteps(sh: Shared)
    requires Open(sh)
    ensures var p1, p2 := START.p.(pc := InSession(Ack)), START.p.(pc := InSession(ReadPhase));
            var p3 := START.p.(pc := InSession(Want(YLoad)), st := Polling);
            && PollStep(sh, START.p, CALM) == PollNext(sh, p1, None)
            && PollStep(sh, p1, CALM) == PollNext(sh, p2, None)
            && PollStep(sh, p2, CALM) == PollNext(sh, p3, None)
            && PollStep(sh, p3, CALM) == PollNext(sh, WANTING, None)
  {
  }

  lemma OpensSession(s: seq<Choice>) returns (t: seq<Choice>)
    requires Run(s).p == WANTING && NeverEnds(s)
    ensures Run(t) == Run(s).(p := HELD.(pc := InIdentify(SetWait))) && NeverEnds(t)
  {
    hide Run, PollStep;
    t := PollPush(s, CALM);
    t := PollPush(t, CALM);
    t := PollPush(t, CALM);
    OpeningSteps(Run(s).sh);
  }

  lemma OpeningSteps(sh: Shared)
    ensures var p1 := WANTING.(pc := InSession(SessionAt.Opening), deviceHeld := true);
            var p2 := WANTING.(pc := InSession(CheckPrints), deviceHeld := true, agentOpen := true, prints := 1);
            && PollStep(sh, WANTING, CALM) == PollNext(sh, p1, Some(OpenStarted))
            && PollStep(sh, p1, CALM) == PollNext(sh, p2, Some(OpenDone))
            && PollStep(sh, p2, CALM) == PollNext(sh, HELD.(pc := InIdentify(SetWait)), None)
  {
  }

  lemma WaitsForFinger(s: seq<Choice>) returns (t: seq<Choice>)
    requires Run(s).p == HELD.(pc := InIdentify(SetWait)) && Open(Run(s).sh) && NeverEnds(s)
    ensures Run(t) == Run(s).(sh := Run(s).sh.(waitPhase := Polling), p := HELD.(pc := InIdentify(Finger)))
            && NeverEnds(t)
  {
    hide Run, PollStep;
    t := PollPush(s, CALM);
    t := PollPush(t, CALM);
    t := PollPush(t, CALM);
    t := PollPush(t, CALM);
    t := PollPush(t, CALM);
    IdentifyingSteps(Run(s).sh);
  }

  lemma IdentifyingSteps(sh: Shared)
    requires Open(sh)
    ensures var p0, p1 := HELD.(pc := InIdentify(SetWait)), HELD.(pc := InIdentify(Start));
            var p2, p3 := HELD.(pc := InIdentify(AbortPhase)), HELD.(pc := InIdentify(AbortYield(YLoad)));
            var p4, after := HELD.(pc := InIdentify(AbortRunning)), sh.(waitPhase := Polling);
            && PollStep(sh, p0, CALM) == PollNext(after, p1, None)
            && PollStep(after, p1, CALM) == PollNext(after, p2, None)
            && PollStep(after, p2, CALM) == PollNext(after, p3, None)
            && PollStep(after, p3, CALM) == PollNext(after, p4, None)
            && PollStep(after, p4, CALM) == PollNext(after, HELD.(pc := InIdentify(Finger)), None)
  {
  }

  const TOUCH := CALM.(capture := SaysMatch)

  /** The finger matches, and handle_match gets as far as its copy of the password. */
  lemma Matches(s: seq<Choice>) returns (t: seq<Choice>)
    requires Run(s).p == HELD.(pc := InIdentify(Finger)) && Open(Run(s).sh) && Run(s).sh.passwordReady && NeverEnds(s)
    ensures Run(t) == Run(s).(p := HELD.(pc := InMatch(MatchSource), password := Run(s).sh.passwordValid))
            && NeverEnds(t)
  {
    hide Run, PollStep;
    t := PollPush(s, TOUCH);
    t := PollPush(t, CALM);
    t := PollPush(t, CALM);
    t := PollPush(t, CALM);
    MatchingSteps(Run(s).sh);
  }

  lemma MatchingSteps(sh: Shared)
    requires Open(sh) && sh.passwordReady
    ensures var p0, p1 := HELD.(pc := InIdentify(Finger)), HELD.(pc := InMatch(MatchReady(0)));
            var p2, p3 := HELD.(pc := InMatch(MatchRead)), HELD.(pc := InMatch(MatchSnapshot));
            && PollStep(sh, p0, TOUCH) == PollNext(sh, p1, Some(Identified(Polling, Match)))
            && PollStep(sh, p1, CALM) == PollNext(sh, p2, None)
            && PollStep(sh, p2, CALM) == PollNext(sh, p3, Some(SawPolling))
            && PollStep(sh, p3, CALM)
               == PollNext(sh, HELD.(pc := InMatch(MatchSource), password := sh.passwordValid), None)
  {
  }

  // ---------- an unlock ----------

  const UNLOCKS := CALM.(request := Request.ScreenUnlocked)

  /** on_screen_unlocked as far as the trigger, which it has cleared. */
  lemma UnlockBegins(s: seq<Choice>, ticks: nat) returns (t: seq<Choice>)
    requires Run(s).m == Waits(ticks) && NeverEnds(s)
    ensures var sh := Run(s).sh;
            Run(t) == Run(s).(sh := sh.(phase := Idle, armNotBefore := sh.clock + GRACE, source := NoTrigger),
                              m := Main(Unlocking(USince), 0, ticks))
    ensures NeverEnds(t)
  {
    hide MainStep, Run;
    t := MainPush(s, UNLOCKS);
    t := MainPush(t, CALM);
    t := MainPush(t, CALM);
    t := MainPush(t, CALM);
    UnlockingSteps(Run(s).sh, ticks);
  }

  lemma UnlockingSteps(sh: Shared, ticks: nat)
    ensures var m0, m1 := Main(Unlocking(UStore), 0, ticks), Main(Unlocking(UGrace), 0, ticks);
            var m2, sh1 := Main(Unlocking(USource), 0, ticks), sh.(phase := Idle);
            var sh2 := sh1.(armNotBefore := sh.clock + GRACE);
            var n0, n1 := MainStep(sh, Waits(ticks), UNLOCKS), MainStep(sh, m0, CALM);
            && n0 == MainNext(sh, m0, None) && n1.sh == sh1 && n1.m == m1
            && MainStep(sh1, m1, CALM) == MainNext(sh2, m2, None)
            && MainStep(sh2, m2, CALM)
               == MainNext(sh2.(source := NoTrigger), Main(Unlocking(USince), 0, ticks), None)
  {
  }

  /** The rest of it. */
  lemma UnlockFinishes(s: seq<Choice>, ticks: nat) returns (t: seq<Choice>)
    requires Run(s).m == Main(Unlocking(USince), 0, ticks) && NeverEnds(s)
    ensures var sh := Run(s).sh.(lockSince := 0, failedTouches := 0, passwordValid := false, passwordReady := false);
            Run(t) == Run(s).(sh := sh, m := Waits(ticks))
    ensures NeverEnds(t)
  {
    hide MainStep, Run;
    t := MainPush(s, CALM);
    t := MainPush(t, CALM);
    t := MainPush(t, CALM);
    t := MainPush(t, CALM);
    FinishingSteps(Run(s).sh, ticks);
  }

  lemma FinishingSteps(sh: Shared, ticks: nat)
    ensures var m0, m1 := Main(Unlocking(USince), 0, ticks), Main(Unlocking(UFailures), 0, ticks);
            var m2, m3 := Main(Unlocking(UPassword), 0, ticks), Main(Unlocking(UReady), 0, ticks);
            var sh1 := sh.(lockSince := 0);
            var sh2 := sh1.(failedTouches := 0);
            var sh3 := sh2.(passwordValid := false);
            && MainStep(sh, m0, CALM) == MainNext(sh1, m1, None)
            && MainStep(sh1, m1, CALM) == MainNext(sh2, m2, None)
            && MainStep(sh2, m2, CALM) == MainNext(sh3, m3, None)
            && MainStep(sh3, m3, CALM) == MainNext(sh3.(passwordReady := false), Waits(ticks), None)
  {
  }
}
