/** What stands between reading the trigger of an episode and typing the password. For a lock screen handle_match reads
    the state once more, for a padlock it looks at the target once more; a trigger that was cleared in the meantime
    gets neither. */
module LockAgentTyping {
  import opened Options
  import opened LockAgent
  import opened LockAgentEpisode
  import opened LockAgentRuns
  import opened LockAgentTimeout

  /** The thread has read the trigger and may still type. */
  predicate ToType(pc: PollPc) {
    pc.InMatch? && (pc.hit.MatchFocus? || pc.hit.MatchSettle? || pc.hit.MatchRecheck? || pc.hit.MatchType?)
  }

  // ---------- one step ----------

  /** A password is typed only from the step made for it, and the way there starts inside handle_match. */
  predicate TypingStep(p: Poller, n: PollNext) {
    && (n.event.Some? && n.event.value.Typed? ==> p.pc.InMatch? && p.pc.hit.MatchType?)
    && (ToType(n.p.pc) ==> p.pc.InMatch?)
  }

  lemma SessionTypes(sh: Shared, p: Poller, at: SessionAt, w: World)
    requires p.pc == InSession(at)
    ensures TypingStep(p, SessionStep(sh, p, at, w))
  {
  }

  lemma IdentifyTypes(sh: Shared, p: Poller, at: IdentifyAt, w: World)
    requires p.pc == InIdentify(at)
    ensures TypingStep(p, IdentifyStep(sh, p, at, w))
  {
    hide YieldStep;
  }

  lemma GiveUpTypes(sh: Shared, p: Poller, at: GiveUpAt, w: World)
    requires p.pc == InGiveUp(at)
    ensures TypingStep(p, GiveUpStep(sh, p, at, w))
  {
    hide SettleStep;
    SubroutinesAreQuiet(sh, w);
  }

  lemma TouchTypes(sh: Shared, p: Poller, at: TouchAt, w: World)
    requires p.pc == InTouch(at)
    ensures TypingStep(p, TouchStep(sh, p, at, w))
  {
    hide ArmStep;
    SubroutinesAreQuiet(sh, w);
  }

  lemma MissTypes(sh: Shared, p: Poller, at: MissAt, w: World)
    requires p.pc == InMiss(at)
    ensures TypingStep(p, MissStep(sh, p, at, w))
  {
    hide SettleStep;
    SubroutinesAreQuiet(sh, w);
  }

  /** What leads to the places of interest inside handle_match. */
  predicate MatchLeads(sh: Shared, at: MatchAt, n: PollNext, w: World) {
    && (n.event.Some? && n.event.value.Typed? ==> at.MatchType?)
    && (ToType(n.p.pc) ==>
          if n.p.pc.hit.MatchFocus? then at.MatchSource? && sh.source == Padlock
          else if n.p.pc.hit.MatchSettle? then at.MatchSource? && sh.source == LockScreen
          else if n.p.pc.hit.MatchRecheck? then at.MatchSettle?
          else
            || (at.MatchSource? && sh.source == NoTrigger)
            || (at.MatchFocus? && w.stillSecure)
            || (at.MatchRecheck? && sh.phase == Polling))
  }

  lemma MatchStepLeads(sh: Shared, p: Poller, at: MatchAt, w: World)
    requires p.pc == InMatch(at)
    ensures MatchLeads(sh, at, MatchStep(sh, p, at, w), w)
  {
    hide SettleStep;
    SubroutinesAreQuiet(sh, w);
  }

  lemma PollTypes(sh: Shared, p: Poller, w: World)
    ensures TypingStep(p, PollStep(sh, p, w))
    ensures p.pc.InMatch? ==> MatchLeads(sh, p.pc.hit, PollStep(sh, p, w), w)
  {
    hide TypingStep, MatchLeads;
    match p.pc
    case InSession(at) => SessionTypes(sh, p, at, w);
    case InIdentify(at) => IdentifyTypes(sh, p, at, w);
    case InGiveUp(at) => GiveUpTypes(sh, p, at, w);
    case InTouch(at) => TouchTypes(sh, p, at, w);
    case InMiss(at) => MissTypes(sh, p, at, w);
    case InMatch(at) =>
      MatchStepLeads(sh, p, at, w);
      MatchTypes(sh, p, at, w);
  }

  lemma MatchTypes(sh: Shared, p: Poller, at: MatchAt, w: World)
    requires p.pc == InMatch(at)
    ensures TypingStep(p, MatchStep(sh, p, at, w))
  {
    hide MatchStep, MatchLeads;
    MatchStepLeads(sh, p, at, w);
    LeadsToTyping(sh, p, at, MatchStep(sh, p, at, w), w);
  }

  lemma LeadsToTyping(sh: Shared, p: Poller, at: MatchAt, n: PollNext, w: World)
    requires p.pc == InMatch(at) && MatchLeads(sh, at, n, w)
    ensures TypingStep(p, n)
  {
  }

  // ---------- whole runs ----------

  /** Step k of the run reads the trigger source in handle_match. */
  predicate ReadsSource(schedule: seq<Choice>, k: nat) {
    && k < |schedule| && schedule[k].actor == PollThread
    && var pc := Run(schedule[..k]).p.pc; pc.InMatch? && pc.hit.MatchSource?
  }

  /** Step m of the run is one of the two re-checks, passed: POLLING read again, or the padlock still there. */
  predicate Rechecks(schedule: seq<Choice>, m: nat) {
    && m < |schedule| && schedule[m].actor == PollThread
    && var a := Run(schedule[..m]);
       a.p.pc.InMatch? && ((a.p.pc.hit.MatchRecheck? && a.sh.phase == Polling)
                           || (a.p.pc.hit.MatchFocus? && schedule[m].w.stillSecure))
  }

  predicate RecheckedIn(schedule: seq<Choice>, k: nat, n: nat) { exists m :: k < m < n && Rechecks(schedule, m) }

  /** Step k is the last to have read the source, and since then a re-check was passed exactly if the thread is at the
      typing itself and the source was not cleared. */
  predicate SourceRead(schedule: seq<Choice>, k: nat, pc: PollPc) {
    && ReadsSource(schedule, k) && (forall m :: k < m < |schedule| ==> !ReadsSource(schedule, m))
    && var source := Run(schedule[..k]).sh.source;
       && (pc.InMatch? && pc.hit.MatchFocus? ==> source == Padlock)
       && (pc.InMatch? && (pc.hit.MatchSettle? || pc.hit.MatchRecheck?) ==> source == LockScreen)
       && (RecheckedIn(schedule, k, |schedule|) <==> pc.InMatch? && pc.hit.MatchType? && source != NoTrigger)
  }

  lemma Longer(before: seq<Choice>, c: Choice, k: nat)
    requires k < |before|
    ensures var s := before + [c];
            ReadsSource(s, k) == ReadsSource(before, k) && Rechecks(s, k) == Rechecks(before, k)
              && s[..k] == before[..k]
  {
    assert (before + [c])[..k] == before[..k];
  }

  /** One more step, with the thread still on its way. */
  lemma ReadGrows(before: seq<Choice>, c: Choice, k: nat, pc: PollPc, pc': PollPc)
    requires SourceRead(before, k, pc) && !ReadsSource(before + [c], |before|)
    requires pc.InMatch? && pc'.InMatch?
    requires pc'.hit.MatchFocus? ==> pc.hit.MatchFocus?
    requires pc'.hit.MatchSettle? || pc'.hit.MatchRecheck? ==> pc.hit.MatchSettle? || pc.hit.MatchRecheck?
    requires pc.hit.MatchType? ==> pc'.hit.MatchType? && !Rechecks(before + [c], |before|)
    requires pc'.hit.MatchType? && !pc.hit.MatchType? ==>
               Rechecks(before + [c], |before|) && (pc.hit.MatchFocus? || pc.hit.MatchRecheck?)
    requires !pc'.hit.MatchType? ==> !Rechecks(before + [c], |before|)
    ensures SourceRead(before + [c], k, pc')
  {
    hide ReadsSource, Rechecks, Run;
    Inside(before, k);
    var s := before + [c];
    forall m | k <= m < |before|
      ensures ReadsSource(s, m) == ReadsSource(before, m) && Rechecks(s, m) == Rechecks(before, m)
    {
      Longer(before, c, m);
    }
    Longer(before, c, k);
    if RecheckedIn(before, k, |before|) {
      var m :| k < m < |before| && Rechecks(before, m);
      assert Rechecks(s, m);
    }
  }

  lemma Inside(schedule: seq<Choice>, k: nat)
    requires ReadsSource(schedule, k)
    ensures k < |schedule|
  {
  }

  lemma {:induction false} SourceBehind(schedule: seq<Choice>) returns (k: nat)
    requires ToType(Run(schedule).p.pc)
    ensures SourceRead(schedule, k, Run(schedule).p.pc)
  {
    hide PollStep, MainStep, SourceRead;
    StartsElsewhere(schedule);
    var before, c := schedule[..|schedule| - 1], schedule[|schedule| - 1];
    assert schedule == before + [c];
    var a := Run(before);
    if c.actor != PollThread {
      OthersLeave(a, c);
      k := SourceBehind(before);
      NotTheThread(before, c);
      ReadGrows(before, c, k, a.p.pc, a.p.pc);
    } else {
      PollTypes(Later(a.sh, c.w), a.p, c.w);
      if a.p.pc.hit.MatchSource? {
        k := |before|;
        JustRead(before, c);
      } else {
        k := SourceBehind(before);
        OnTheWay(before, c, k);
      }
    }
  }

  lemma StartsElsewhere(schedule: seq<Choice>)
    requires ToType(Run(schedule).p.pc)
    ensures schedule != []
  {
  }

  lemma OthersLeave(a: Agent, c: Choice)
    requires c.actor != PollThread
    ensures Step(a, c).agent.p == a.p
  {
    hide MainStep;
  }

  lemma NotTheThread(before: seq<Choice>, c: Choice)
    requires c.actor != PollThread
    ensures !ReadsSource(before + [c], |before|) && !Rechecks(before + [c], |before|)
  {
  }

  lemma JustRead(before: seq<Choice>, c: Choice)
    requires c.actor == PollThread && Run(before).p.pc.InMatch? && Run(before).p.pc.hit.MatchSource?
    requires ToType(Run(before + [c]).p.pc)
    requires MatchLeads(Later(Run(before).sh, c.w), Run(before).p.pc.hit,
                        PollStep(Later(Run(before).sh, c.w), Run(before).p, c.w), c.w)
    ensures SourceRead(before + [c], |before|, Run(before + [c]).p.pc)
  {
    hide PollStep;
    assert (before + [c])[..|before|] == before;
  }

  lemma OnTheWay(before: seq<Choice>, c: Choice, k: nat)
    requires c.actor == PollThread && Run(before).p.pc.InMatch? && !Run(before).p.pc.hit.MatchSource?
    requires ToType(Run(before + [c]).p.pc) && SourceRead(before, k, Run(before).p.pc)
    requires MatchLeads(Later(Run(before).sh, c.w), Run(before).p.pc.hit,
                        PollStep(Later(Run(before).sh, c.w), Run(before).p, c.w), c.w)
    ensures SourceRead(before + [c], k, Run(before + [c]).p.pc)
  {
    hide PollStep, SourceRead;
    assert (before + [c])[..|before|] == before;
    ReadGrows(before, c, k, Run(before).p.pc, Run(before + [c]).p.pc);
  }

  /** Between reading the source and typing a password the thread passed one of the two re-checks if and only if the
      source it read was not cleared. */
  lemma TypingIsRecheckedIff(schedule: seq<Choice>, i: nat) returns (k: nat)
    requires i < |schedule| && Step(Run(schedule[..i]), schedule[i]).event == Some(Typed)
    ensures k < i && ReadsSource(schedule[..i], k) && forall m :: k < m < i ==> !ReadsSource(schedule[..i], m)
    ensures RecheckedIn(schedule[..i], k, i) <==> Run(schedule[..i][..k]).sh.source != NoTrigger
  {
    hide PollStep, MainStep, Run;
    var a, c := Run(schedule[..i]), schedule[i];
    MainIsQuiet(Later(a.sh, c.w), a.m, c.w);
    PollTypes(Later(a.sh, c.w), a.p, c.w);
    k := SourceBehind(schedule[..i]);
  }

  // ---------- a run in which the source is cleared ----------

  /** A reachable run: the finger matches, the password is in hand, the screen is unlocked by other means, and the
      password is typed all the same, with the source read as cleared, no re-check, and the state long IDLE. */
  lemma TypingCanGoUnchecked() returns (s: seq<Choice>)
    ensures s != [] && ReadsSource(s, |s| - 1) && Run(s[..|s| - 1]).sh.source == NoTrigger
    ensures Step(Run(s), POLL).event == Some(Typed) && Run(s).sh.phase == Idle
  {
    hide Run, Step;
    s := StartsDisabled();
    s := ScreenLocks(s, 0);
    s := EpisodeStarts(s, LockScreen, 0);
    s := LoaderComesIn(s);
    s := LoaderRaisesReady(s);
    s := WantsSession(s);
    s := OpensSession(s);
    s := WaitsForFinger(s);
    s := Matches(s);
    s := UnlockBegins(s, 0);
    s := TypesNext(s);
  }

  lemma TypesNext(s: seq<Choice>) returns (t: seq<Choice>)
    requires Run(s).p.pc == InMatch(MatchSource) && Run(s).p.password && Run(s).sh.source == NoTrigger
             && Run(s).sh.phase == Idle
    ensures t == s + [POLL] && ReadsSource(t, |t| - 1) && Run(t[..|t| - 1]).sh.source == NoTrigger
    ensures Step(Run(t), POLL).event == Some(Typed) && Run(t).sh.phase == Idle
  {
    hide MainStep;
    t := s + [POLL];
    assert t[..|t| - 1] == s;
  }
}
