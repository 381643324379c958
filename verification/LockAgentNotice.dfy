/** The yield-ready notification, counted: what a begin makes due, the polling thread delivers once. */
module LockAgentNotice {
  import opened Options
  import opened LockAgent
  import opened LockAgentTrace
  import opened LockAgentRuns
  import opened LockAgentYield

  const TOLD := {YieldReady}

  /** Notifications that are due: the acknowledgement is pending, or taken and about to be sent. */
  function DueIn(ack: bool, pc: PollPc): nat {
    (if ack then 1 else 0) + if pc.InSession? && pc.session.Notify? then 1 else 0
  }

  function Due(a: Agent): nat { DueIn(a.sh.yieldAck, a.p.pc) }

  function Told(event: Option<Event>): nat { if event.Some? && event.value.YieldReady? then 1 else 0 }

  // ---------- one step of each thread ----------

  /** The polling thread only turns what is due into a notification. */
  predicate NoticeStep(sh: Shared, p: Poller, n: PollNext) {
    DueIn(n.sh.yieldAck, n.p.pc) + Told(n.event) == DueIn(sh.yieldAck, p.pc)
  }

  lemma SessionNotices(sh: Shared, p: Poller, at: SessionAt, w: World)
    requires p.pc == InSession(at)
    ensures NoticeStep(sh, p, SessionStep(sh, p, at, w))
  {
  }

  lemma IdentifyNotices(sh: Shared, p: Poller, at: IdentifyAt, w: World)
    requires p.pc == InIdentify(at)
    ensures NoticeStep(sh, p, IdentifyStep(sh, p, at, w))
  {
    hide Answered, SpoiledStep, YieldStep;
    if at.AbortYield? { AbortNotices(sh, p, at.y, w); } else { forall answer { AnswersNotice(sh, p, answer); } }
  }

  lemma AnswersNotice(sh: Shared, p: Poller, answer: Answer)
    requires p.pc.InIdentify?
    ensures NoticeStep(sh, p, Answered(sh, p, answer)) && NoticeStep(sh, p, SpoiledStep(sh, p, answer))
  {
  }

  lemma AbortNotices(sh: Shared, p: Poller, y: YieldAt, w: World)
    requires p.pc == InIdentify(AbortYield(y))
    ensures NoticeStep(sh, p, IdentifyStep(sh, p, AbortYield(y), w))
  {
    hide Answered, SpoiledStep;
    AnswersNotice(YieldStep(sh, y).0, p, Aborted);
  }

  lemma GiveUpNotices(sh: Shared, p: Poller, at: GiveUpAt, w: World)
    requires p.pc == InGiveUp(at)
    ensures NoticeStep(sh, p, GiveUpStep(sh, p, at, w))
  {
    hide SettleStep;
    SubroutinesAreQuiet(sh, w);
    if at.AbandonSettle? { SettleOnlyLowers(sh, at.s, w); }
  }

  lemma TouchNotices(sh: Shared, p: Poller, at: TouchAt, w: World)
    requires p.pc == InTouch(at)
    ensures NoticeStep(sh, p, TouchStep(sh, p, at, w))
  {
    hide ArmStep;
    SubroutinesAreQuiet(sh, w);
    if at.TouchArm? { ArmOnlyLowers(sh, at.a, w); }
  }

  lemma MatchNotices(sh: Shared, p: Poller, at: MatchAt, w: World)
    requires p.pc == InMatch(at)
    ensures NoticeStep(sh, p, MatchStep(sh, p, at, w))
  {
    hide SettleStep;
    SubroutinesAreQuiet(sh, w);
    if at.MatchIdle? { SettleOnlyLowers(sh, at.s, w); }
  }

  lemma MissNotices(sh: Shared, p: Poller, at: MissAt, w: World)
    requires p.pc == InMiss(at)
    ensures NoticeStep(sh, p, MissStep(sh, p, at, w))
  {
    hide SettleStep;
    SubroutinesAreQuiet(sh, w);
    if at.MissSettle? { SettleOnlyLowers(sh, at.s, w); }
  }

  lemma PollNotices(sh: Shared, p: Poller, w: World)
    ensures NoticeStep(sh, p, PollStep(sh, p, w))
  {
    hide NoticeStep;
    match p.pc
    case InSession(at) => SessionNotices(sh, p, at, w);
    case InIdentify(at) => IdentifyNotices(sh, p, at, w);
    case InGiveUp(at) => GiveUpNotices(sh, p, at, w);
    case InTouch(at) => TouchNotices(sh, p, at, w);
    case InMatch(at) => MatchNotices(sh, p, at, w);
    case InMiss(at) => MissNotices(sh, p, at, w);
  }

  /** A begin is handled: the main loop makes an acknowledgement due. */
  predicate HandlesBegin(a: Agent, c: Choice) { c.actor == MainLoop && BetweenStores(a.m) }

  /** Whatever steps, at most a begin adds to what is due; only an end withdraws it unsaid. */
  lemma StepNotices(a: Agent, c: Choice)
    ensures var n := Step(a, c);
            && Due(n.agent) + Told(n.event) <= Due(a) + (if HandlesBegin(a, c) then 1 else 0)
            && (!EndingYield(a.m) && Due(a) > 0 ==> Due(n.agent) > 0 || Told(n.event) > 0)
  {
    hide MainStep, PollStep;
    var sh := Later(a.sh, c.w);
    match c.actor
    case MainLoop =>
      MainYields(sh, a.m, c.w);
      MainIsQuiet(sh, a.m, c.w);
    case PollThread => PollNotices(sh, a.p, c.w);
    case PasswordThread =>
  }

  // ---------- whole runs ----------

  /** The begins handled in a run. */
  function Begun(schedule: seq<Choice>): nat {
    if schedule == [] then 0
    else
      var before := schedule[..|schedule| - 1];
      Begun(before) + if HandlesBegin(Run(before), schedule[|schedule| - 1]) then 1 else 0
  }

  lemma CountTold(trace: seq<Event>, event: Option<Event>)
    ensures Count(trace + if event.Some? then [event.value] else [], TOLD) == Count(trace, TOLD) + Told(event)
  {
    if event.Some? { Snoc(trace, event.value); } else { assert trace + [] == trace; }
  }

  lemma OneStepTold(schedule: seq<Choice>)
    requires schedule != []
    ensures var before := schedule[..|schedule| - 1];
            var event := Step(Run(before), schedule[|schedule| - 1]).event;
            Count(Trace(schedule), TOLD) == Count(Trace(before), TOLD) + Told(event)
  {
    hide Step, Run;
    var before := schedule[..|schedule| - 1];
    CountTold(Trace(before), Step(Run(before), schedule[|schedule| - 1]).event);
  }

  /** In every run the notifications sent, and those due, never exceed the begins. */
  lemma {:induction false} NoticesNeverExceedBegins(schedule: seq<Choice>)
    ensures Count(Trace(schedule), TOLD) + Due(Run(schedule)) <= Begun(schedule)
  {
    hide Step;
    if schedule != [] {
      var before := schedule[..|schedule| - 1];
      NoticesNeverExceedBegins(before);
      OneStepTold(schedule);
      StepNotices(Run(before), schedule[|schedule| - 1]);
    }
  }

  /** Under a flag that stays set, what is due stays due until it is said. */
  lemma {:induction false} DueIsSaid(schedule: seq<Choice>, i: nat, j: nat)
    requires i <= j <= |schedule| && FlagStays(schedule, i, j) && Due(Run(schedule[..i])) > 0
    ensures Count(Trace(schedule[..j]), TOLD) >= Count(Trace(schedule[..i]), TOLD)
    ensures Due(Run(schedule[..j])) > 0 || Count(Trace(schedule[..j]), TOLD) > Count(Trace(schedule[..i]), TOLD)
    decreases j
  {
    hide Step, Run, Trace, Due;
    if i < j {
      DueIsSaid(schedule, i, j - 1);
      var a := Run(schedule[..j - 1]);
      assert schedule[..j][..j - 1] == schedule[..j - 1] && a.sh.yieldActive;
      OneStepTold(schedule[..j]);
      RunKeepsYield(schedule[..j - 1]);
      RunOfPrefix(schedule, j - 1);
      StepNotices(a, schedule[j - 1]);
    }
  }
}
