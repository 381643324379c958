/** How long the login password stays in memory, and which loader raises the ready flag. The password is stored by
    loader threads, whenever they come to it, and cleared only when the screen is unlocked. */
module LockAgentPassword {
  import opened Options
  import opened LockAgent
  import opened LockAgentEpisode
  import opened LockAgentTimeout

  // ---------- who touches the password ----------

  /** A step of a thread that leaves the password, its ready flag and the loaders alone. */
  predicate KeepsPassword(before: Shared, after: Shared) {
    && after.passwordValid == before.passwordValid && after.passwordReady == before.passwordReady
    && after.loading == before.loading && after.loaded == before.loaded
  }

  lemma ArmKeeps(sh: Shared, at: ArmAt, w: World)
    ensures KeepsPassword(sh, ArmStep(sh, at, w).0)
  {
  }

  lemma SettleKeeps(sh: Shared, at: SettleAt, w: World)
    ensures KeepsPassword(sh, SettleStep(sh, at, w).0)
  {
    hide ArmStep;
    if at.SArm? { ArmKeeps(sh, at.a, w); }
  }

  lemma SessionKeeps(sh: Shared, p: Poller, at: SessionAt, w: World)
    requires p.pc == InSession(at)
    ensures KeepsPassword(sh, SessionStep(sh, p, at, w).sh)
  {
  }

  lemma IdentifyKeeps(sh: Shared, p: Poller, at: IdentifyAt, w: World)
    requires p.pc == InIdentify(at)
    ensures KeepsPassword(sh, IdentifyStep(sh, p, at, w).sh)
  {
  }

  lemma GiveUpKeeps(sh: Shared, p: Poller, at: GiveUpAt, w: World)
    requires p.pc == InGiveUp(at)
    ensures KeepsPassword(sh, GiveUpStep(sh, p, at, w).sh)
  {
    hide SettleStep;
    if at.AbandonSettle? { SettleKeeps(sh, at.s, w); }
  }

  lemma TouchKeeps(sh: Shared, p: Poller, at: TouchAt, w: World)
    requires p.pc == InTouch(at)
    ensures KeepsPassword(sh, TouchStep(sh, p, at, w).sh)
  {
    hide ArmStep;
    if at.TouchArm? { ArmKeeps(sh, at.a, w); }
  }

  lemma MatchKeeps(sh: Shared, p: Poller, at: MatchAt, w: World)
    requires p.pc == InMatch(at)
    ensures KeepsPassword(sh, MatchStep(sh, p, at, w).sh)
  {
    hide SettleStep;
    if at.MatchIdle? { SettleKeeps(sh, at.s, w); }
  }

  lemma MissKeeps(sh: Shared, p: Poller, at: MissAt, w: World)
    requires p.pc == InMiss(at)
    ensures KeepsPassword(sh, MissStep(sh, p, at, w).sh)
  {
    hide SettleStep;
    if at.MissSettle? { SettleKeeps(sh, at.s, w); }
  }

  /** The polling thread only ever reads the password, handle_match included. */
  lemma PollKeeps(sh: Shared, p: Poller, w: World)
    ensures KeepsPassword(sh, PollStep(sh, p, w).sh)
  {
    hide KeepsPassword;
    match p.pc
    case InSession(at) => SessionKeeps(sh, p, at, w);
    case InIdentify(at) => IdentifyKeeps(sh, p, at, w);
    case InGiveUp(at) => GiveUpKeeps(sh, p, at, w);
    case InTouch(at) => TouchKeeps(sh, p, at, w);
    case InMatch(at) => MatchKeeps(sh, p, at, w);
    case InMiss(at) => MissKeeps(sh, p, at, w);
  }

  predicate Clearing(m: Main) { m.pc == Unlocking(UPassword) }

  predicate Unreadying(m: Main) { m.pc == Unlocking(UReady) || (m.pc.Triggering? && m.pc.t.TReady?) }

  predicate Spawning(m: Main) { m.pc.Triggering? && m.pc.t.TSpawn? }

  /** The main loop clears the password in one place, lowers the ready flag in two, and starts loaders in one. */
  predicate MainTouches(sh: Shared, m: Main, w: World, n: MainNext) {
    && n.sh.passwordValid == (sh.passwordValid && !Clearing(m))
    && n.sh.passwordReady == (sh.passwordReady && !Unreadying(m))
    && n.sh.loading == sh.loading + (if Spawning(m) && w.threadStarted then 1 else 0)
    && n.sh.loaded == sh.loaded
  }

  lemma YieldRequestKeeps(sh: Shared, m: Main, at: YieldRequestAt, w: World)
    ensures KeepsPassword(sh, YieldRequestStep(sh, m, at, w).sh)
  {
    hide ArmStep;
    if at.EndArm? { ArmKeeps(sh, at.a, w); }
  }

  lemma TickKeeps(sh: Shared, m: Main, at: TickAt, w: World)
    ensures KeepsPassword(sh, TickStep(sh, m, at, w).sh)
  {
    hide ArmStep;
    if at.TickHeal? { ArmKeeps(sh, at.a, w); }
  }

  lemma LoopKeeps(sh: Shared, m: Main, at: LoopAt, w: World)
    ensures KeepsPassword(sh, LoopStep(sh, m, at, w).sh)
  {
  }

  lemma TriggerTouches(sh: Shared, m: Main, t: TriggerAt, source: Source, w: World)
    requires m.pc == Triggering(t, source)
    ensures MainTouches(sh, m, w, MainStep(sh, m, w))
  {
    hide SettleStep;
    if t.TSettle? || t.TNoThread? { SettleKeeps(sh, t.s, w); }
  }

  lemma UnlockTouches(sh: Shared, m: Main, u: UnlockAt, w: World)
    requires m.pc == Unlocking(u)
    ensures MainTouches(sh, m, w, MainStep(sh, m, w))
  {
  }

  lemma MainTouchesPassword(sh: Shared, m: Main, w: World)
    ensures MainTouches(sh, m, w, MainStep(sh, m, w))
  {
    hide ArmStep, TriggerStep, UnlockStep, LoopStep, TickStep, YieldRequestStep;
    match m.pc
    case InLoop(at) => LoopKeeps(sh, m, at, w);
    case Arming(a) => ArmKeeps(sh, a, w);
    case Triggering(t, source) => TriggerTouches(sh, m, t, source, w);
    case Unlocking(u) => UnlockTouches(sh, m, u, w);
    case OnYield(at) => YieldRequestKeeps(sh, m, at, w);
    case OnTick(at) => TickKeeps(sh, m, at, w);
  }

  // ---------- the steps of a run that matter ----------

  /** A loader stores the outcome of reading the volume: the password, or that there is none. */
  predicate LoaderStores(a: Agent, c: Choice) {
    c.actor == PasswordThread && a.sh.loading > 0 && c.w.threadStarted && c.w.mounted
  }

  predicate StoresPassword(a: Agent, c: Choice) { LoaderStores(a, c) && c.w.passwordStored }

  /** The two ways the password goes: an unlock clears it, or a loader finds none stored. */
  predicate ClearsPassword(a: Agent, c: Choice) {
    (c.actor == MainLoop && Clearing(a.m)) || (LoaderStores(a, c) && !c.w.passwordStored)
  }

  predicate StartsLoader(a: Agent, c: Choice) { c.actor == MainLoop && Spawning(a.m) && c.w.threadStarted }

  lemma StepTouches(a: Agent, c: Choice)
    ensures var b := Step(a, c).agent;
            && (b.sh.passwordValid <==> StoresPassword(a, c) || (a.sh.passwordValid && !ClearsPassword(a, c)))
            && (!StartsLoader(a, c) ==>
                b.sh.loading <= a.sh.loading && b.sh.loading + b.sh.loaded <= a.sh.loading + a.sh.loaded)
            && (b.sh.passwordReady && !a.sh.passwordReady ==> a.sh.loaded > 0)
  {
    hide MainStep, PollStep;
    var sh := Later(a.sh, c.w);
    match c.actor
    case MainLoop => MainTouchesPassword(sh, a.m, c.w);
    case PollThread => PollKeeps(sh, a.p, c.w);
    case PasswordThread =>
  }

  predicate StoresAt(schedule: seq<Choice>, k: nat) {
    k < |schedule| && StoresPassword(Run(schedule[..k]), schedule[k])
  }

  predicate ClearsAt(schedule: seq<Choice>, k: nat) {
    k < |schedule| && ClearsPassword(Run(schedule[..k]), schedule[k])
  }

  /** A loader has stored the password at step k and nothing has cleared it since. */
  predicate StoredSince(schedule: seq<Choice>, k: nat) {
    StoresAt(schedule, k) && forall m :: k < m < |schedule| ==> !ClearsAt(schedule, m)
  }

  /** In every run the password is in memory if and only if some loader stored it and neither an unlock nor a loader
      that found none came after. Whether the agent is idle plays no part. */
  lemma {:induction false} ResidentIff(schedule: seq<Choice>)
    ensures Run(schedule).sh.passwordValid <==> exists k: nat :: StoredSince(schedule, k)
  {
    hide StoredSince, StoresAt, ClearsAt, Step, Run;
    if schedule == [] {
      NothingStored();
    } else {
      var n := |schedule| - 1;
      ResidentIff(schedule[..n]);
      if Run(schedule[..n]).sh.passwordValid {
        var k: nat :| StoredSince(schedule[..n], k);
        StoredOn(schedule, k);
      }
      StoredNow(schedule);
      forall k: nat | StoredSince(schedule, k)
        ensures k == n || (StoredSince(schedule[..n], k) && !ClearsAt(schedule, n))
      {
        StoredOn(schedule, k);
      }
    }
  }

  lemma NothingStored()
    ensures !Run([]).sh.passwordValid && forall k: nat :: !StoredSince([], k)
  {
  }

  /** The last step stores the password, or clears it, or leaves it. */
  lemma StoredNow(schedule: seq<Choice>)
    requires schedule != []
    ensures var n := |schedule| - 1;
            && (StoredSince(schedule, n) <==> StoresAt(schedule, n))
            && (Run(schedule).sh.passwordValid
                <==> StoresAt(schedule, n) || (Run(schedule[..n]).sh.passwordValid && !ClearsAt(schedule, n)))
  {
    hide Step, StoresPassword, ClearsPassword;
    var n := |schedule| - 1;
    StepTouches(Run(schedule[..n]), schedule[n]);
  }

  /** What was stored before the last step is still there exactly if that does not clear it. */
  lemma StoredOn(schedule: seq<Choice>, k: nat)
    requires schedule != []
    ensures var n := |schedule| - 1;
            k < n ==> (StoredSince(schedule, k) <==> StoredSince(schedule[..n], k) && !ClearsAt(schedule, n))
    ensures k >= |schedule| ==> !StoredSince(schedule, k)
    ensures k >= |schedule| - 1 ==> !StoredSince(schedule[..|schedule| - 1], k)
  {
    hide Step, Run, StoresPassword, ClearsPassword;
    var n := |schedule| - 1;
    var before := schedule[..n];
    forall m | 0 <= m < n
      ensures StoresAt(schedule, m) == StoresAt(before, m) && ClearsAt(schedule, m) == ClearsAt(before, m)
    {
      assert schedule[..m] == before[..m];
    }
  }

  // ---------- what an unlock and a new episode can rely on ----------

  /** No loader is started in the continuation. */
  predicate NoNewLoader(schedule: seq<Choice>, tail: seq<Choice>) {
    forall k :: 0 <= k < |tail| ==> !StartsLoader(Run(schedule + tail[..k]), tail[k])
  }

  /** No unlock clears the password in the continuation. */
  predicate NoUnlock(schedule: seq<Choice>, tail: seq<Choice>) {
    forall k :: 0 <= k < |tail| ==> !(tail[k].actor == MainLoop && Clearing(Run(schedule + tail[..k]).m))
  }

  /** Without loaders the password and its flag can only go. */
  predicate OnlyGoes(before: Shared, after: Shared) {
    && (before.loading == 0 ==> after.loading == 0 && (after.passwordValid ==> before.passwordValid))
    && (before.loading == 0 && before.loaded == 0 ==>
        after.loaded == 0 && (after.passwordReady ==> before.passwordReady))
  }

  lemma RunGoesOn(schedule: seq<Choice>, c: Choice)
    ensures Run(schedule + [c]) == Step(Run(schedule), c).agent
  {
    hide Step;
    assert (schedule + [c])[..|schedule|] == schedule;
  }

  lemma {:induction false} TailOnlyGoes(schedule: seq<Choice>, tail: seq<Choice>)
    requires NoNewLoader(schedule, tail)
    ensures OnlyGoes(Run(schedule).sh, Run(schedule + tail).sh)
    ensures NoUnlock(schedule, tail) && Run(schedule).sh.loading == 0 && Run(schedule).sh.passwordValid
            ==> Run(schedule + tail).sh.passwordValid
    decreases |tail|
  {
    hide Run, Step, StartsLoader;
    if tail == [] {
      assert schedule + tail == schedule;
    } else {
      var front, c := tail[..|tail| - 1], tail[|tail| - 1];
      assert forall k :: 0 <= k < |front| ==> front[..k] == tail[..k];
      TailOnlyGoes(schedule, front);
      assert schedule + tail == (schedule + front) + [c];
      RunGoesOn(schedule + front, c);
      StepTouches(Run(schedule + front), c);
    }
  }

  const NONE_STORED := Choice(PasswordThread, CALM.(passwordStored := false))

  lemma OneLoader(schedule: seq<Choice>, c: Choice)
    requires c.actor == PasswordThread
    ensures NoNewLoader(schedule, [c]) && NoUnlock(schedule, [c])
    ensures Run(schedule + [c]).sh == LoaderStep(Later(Run(schedule).sh, c.w), c.w)
  {
    hide LoaderStep, MainTurn, PollTurn;
    RunGoesOn(schedule, c);
  }

  /** A password that is out of memory stays out, in every continuation that starts no loader, if and only if no loader
      has its result still to store. */
  lemma StaysOutIff(schedule: seq<Choice>)
    requires !Run(schedule).sh.passwordValid
    ensures (forall tail :: NoNewLoader(schedule, tail) ==> !Run(schedule + tail).sh.passwordValid)
            <==> Run(schedule).sh.loading == 0
  {
    hide Run;
    if Run(schedule).sh.loading == 0 {
      forall tail | NoNewLoader(schedule, tail) ensures !Run(schedule + tail).sh.passwordValid {
        TailOnlyGoes(schedule, tail);
      }
    } else {
      OneLoader(schedule, LOAD);
      assert Run(schedule + [LOAD]).sh.passwordValid;
    }
  }

  /** An unlock that has just cleared the password keeps it out of an idle agent if and only if no loader of the episode
      it ends is still at work. */
  lemma UnlockKeepsItOutIff(before: seq<Choice>, c: Choice)
    requires c.actor == MainLoop && Clearing(Run(before).m)
    ensures var schedule := before + [c];
            && !Run(schedule).sh.passwordValid
            && ((forall tail :: NoNewLoader(schedule, tail) ==> !Run(schedule + tail).sh.passwordValid)
                <==> Run(before).sh.loading == 0)
  {
    hide MainStep, Run;
    RunGoesOn(before, c);
    MainTouchesPassword(Later(Run(before).sh, c.w), Run(before).m, c.w);
    StaysOutIff(before + [c]);
  }

  /** A password in memory stays there, in every continuation without an unlock and a new loader, if and only if no
      loader is still at work. */
  lemma StaysInIff(schedule: seq<Choice>)
    requires Run(schedule).sh.passwordValid
    ensures (forall tail :: NoNewLoader(schedule, tail) && NoUnlock(schedule, tail) ==>
             Run(schedule + tail).sh.passwordValid)
            <==> Run(schedule).sh.loading == 0
  {
    hide Run;
    if Run(schedule).sh.loading == 0 {
      forall tail | NoNewLoader(schedule, tail) && NoUnlock(schedule, tail)
        ensures Run(schedule + tail).sh.passwordValid
      {
        TailOnlyGoes(schedule, tail);
      }
    } else {
      OneLoader(schedule, NONE_STORED);
      assert !Run(schedule + [NONE_STORED]).sh.passwordValid;
    }
  }

  /** An episode that has just lowered the ready flag finds it up again before its own loader is started, in some
      continuation, unless every earlier loader has done all it has to do. */
  lemma ReadyIsOwnIff(before: seq<Choice>, c: Choice)
    requires c.actor == MainLoop && Unreadying(Run(before).m)
    ensures var schedule := before + [c];
            && !Run(schedule).sh.passwordReady
            && ((forall tail :: NoNewLoader(schedule, tail) ==> !Run(schedule + tail).sh.passwordReady)
                <==> Run(before).sh.loading == 0 && Run(before).sh.loaded == 0)
  {
    hide MainStep, Run;
    RunGoesOn(before, c);
    MainTouchesPassword(Later(Run(before).sh, c.w), Run(before).m, c.w);
    StaysUnreadyIff(before + [c]);
  }

  lemma StaysUnreadyIff(schedule: seq<Choice>)
    requires !Run(schedule).sh.passwordReady
    ensures (forall tail :: NoNewLoader(schedule, tail) ==> !Run(schedule + tail).sh.passwordReady)
            <==> Run(schedule).sh.loading == 0 && Run(schedule).sh.loaded == 0
  {
    hide Run;
    var sh := Run(schedule).sh;
    if sh.loading == 0 && sh.loaded == 0 {
      forall tail | NoNewLoader(schedule, tail) ensures !Run(schedule + tail).sh.passwordReady {
        TailOnlyGoes(schedule, tail);
      }
    } else if sh.loaded > 0 {
      OneLoader(schedule, RAISE);
      assert Run(schedule + [RAISE]).sh.passwordReady;
    } else {
      LoadsAndRaises(schedule);
    }
  }

  lemma LoadsAndRaises(schedule: seq<Choice>)
    requires Run(schedule).sh.loading > 0
    ensures NoNewLoader(schedule, [LOAD, RAISE]) && Run(schedule + [LOAD, RAISE]).sh.passwordReady
  {
    hide Run;
    var tail := [LOAD, RAISE];
    OneLoader(schedule, LOAD);
    OneLoader(schedule + [LOAD], RAISE);
    assert schedule + [LOAD] + [RAISE] == schedule + tail;
    assert forall k :: 0 <= k < 2 ==> tail[k].actor == PasswordThread;
  }

  // ---------- the three cases are reached ----------

  /** The agent is idle, with no handler running and no trigger. */
  predicate Rests(a: Agent) { a.sh.phase == Idle && a.sh.source == NoTrigger && a.m.pc == LOOP }

  /** The finger of a padlock episode matches, handle_match runs to its end, and the password stays in the idle agent's
      memory for as long as no screen is unlocked and no loader is started. */
  lemma PasswordOutlivesEpisode() returns (s: seq<Choice>)
    ensures Rests(Run(s)) && Run(s).p.pc == HEAD && Run(s).sh.passwordValid
    ensures forall tail :: NoNewLoader(s, tail) && NoUnlock(s, tail) ==> Run(s + tail).sh.passwordValid
  {
    hide Run, Step;
    s := StartsDisabled();
    s := PadlockAppears(s);
    s := EpisodeStarts(s, Padlock, 1);
    s := LoaderComesIn(s);
    s := LoaderRaisesReady(s);
    s := WantsSession(s);
    s := OpensSession(s);
    s := WaitsForFinger(s);
    s := Matches(s);
    s := TypesAndSettles(s);
    StaysInIff(s);
  }

  lemma TypesAndSettles(s: seq<Choice>) returns (t: seq<Choice>)
    requires Run(s).p == HELD.(pc := InMatch(MatchSource), password := true) && Run(s).sh.source == Padlock
    requires Run(s).sh.phase == Polling && NeverEnds(s)
    ensures var sh := Run(s).sh;
            Run(t) == Agent(sh.(source := NoTrigger, phase := Idle, armNotBefore := sh.clock + GRACE), Run(s).m,
                            HELD.(pc := HEAD, password := true, target := Padlock))
  {
    hide Run, PollStep;
    t := PollPush(s, CALM);
    t := PollPush(t, CALM);
    t := PollPush(t, CALM);
    t := PollPush(t, CALM);
    t := PollPush(t, CALM);
    t := PollPush(t, CALM);
    t := PollPush(t, OFF);
    SettlingSteps(Run(s).sh);
  }

  lemma SettlingSteps(sh: Shared)
    requires sh.source == Padlock && sh.phase == Polling
    ensures var p := HELD.(password := true, target := Padlock);
            var p1, p2 := p.(pc := InMatch(MatchFocus)), p.(pc := InMatch(MatchType));
            var p3, p4 := p.(pc := InMatch(MatchDone)), p.(pc := InMatch(MatchIdle(SStore)));
            var p5, p6 := p.(pc := InMatch(MatchIdle(SGrace))), p.(pc := InMatch(MatchIdle(SArm(AEnabled))));
            var sh4 := sh.(source := NoTrigger);
            var sh5 := sh4.(phase := Idle);
            var sh6 := sh5.(armNotBefore := sh.clock + GRACE);
            && PollStep(sh, HELD.(pc := InMatch(MatchSource), password := true), CALM) == PollNext(sh, p1, None)
            && PollStep(sh, p1, CALM) == PollNext(sh, p2, None)
            && PollStep(sh, p2, CALM) == PollNext(sh, p3, Some(Typed))
            && PollStep(sh, p3, CALM) == PollNext(sh4, p4, None)
            && PollStep(sh4, p4, CALM) == PollNext(sh5, p5, None)
            && PollStep(sh5, p5, CALM) == PollNext(sh6, p6, None)
            && PollStep(sh6, p6, OFF) == PollNext(sh6, p.(pc := HEAD), None)
  {
  }

  /** The screen is unlocked while the loader is still at work; the handler clears the password and ends, and then the
      loader stores it in the idle agent. */
  lemma LoaderComesTooLate() returns (s: seq<Choice>, cleared: nat)
    ensures cleared < |s| && Rests(Run(s[..cleared])) && !Run(s[..cleared]).sh.passwordValid
    ensures Rests(Run(s)) && Run(s).sh.passwordValid && StoresAt(s, cleared) && |s| == cleared + 1
    ensures forall tail :: NoNewLoader(s, tail) && NoUnlock(s, tail) ==> Run(s + tail).sh.passwordValid
  {
    hide Run, Step;
    s := StartsDisabled();
    s := ScreenLocks(s, 0);
    s := EpisodeStarts(s, LockScreen, 0);
    s := UnlockBegins(s, 0);
    s := UnlockFinishes(s, 0);
    cleared := |s|;
    OneLoader(s, LOAD);
    KeepsResting(Run(s));
    RunGoesOn(s, LOAD);
    assert (s + [LOAD])[..cleared] == s;
    s := s + [LOAD];
    StaysInIff(s);
  }

  lemma KeepsResting(a: Agent)
    requires Rests(a) && a.sh.loading == 1
    ensures StoresPassword(a, LOAD) && Rests(Step(a, LOAD).agent) && Step(a, LOAD).agent.sh.passwordValid
    ensures Step(a, LOAD).agent.sh.loading == 0
  {
  }

  /** The loader of one episode raises the ready flag of the next, whose own loader has not stored anything: the
      password counts as loaded and is not there. */
  lemma ReadyCanBeStale() returns (s: seq<Choice>)
    ensures var sh := Run(s).sh;
            && sh.phase == Polling && sh.source == LockScreen && sh.passwordReady && !sh.passwordValid
            && sh.loading == 1 && sh.loaded == 0 && Run(s).m.pc == LOOP
  {
    hide Run, Step;
    s := StartsDisabled();
    s := ScreenLocks(s, 0);
    s := EpisodeStarts(s, LockScreen, 0);
    s := LoaderComesIn(s);
    s := UnlockBegins(s, 0);
    s := UnlockFinishes(s, 0);
    s := ScreenLocks(s, 0);
    s := EpisodeStarts(s, LockScreen, 0);
    s := LoaderRaisesReady(s);
  }
}
