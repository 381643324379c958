/** The background lock agent as a concurrent step machine.

    Two threads share the agent's atomics: the main run loop, which handles notifications, the
    padlock timer and the menu bar's requests, and the polling thread, which owns the sensor
    session. A third kind of thread only loads the password. One step below is one access to a
    shared variable, one call into the system, or one call of the session API; whatever the
    system or the sensor answers arrives in the step's `World`. Subroutines that both threads
    call (`yield_is_active`, `lockswipe_try_arm`, `settle_to_idle`) are step machines of their
    own, nested in the program counter of the caller. */
module LockAgent {
  import opened Options

  // ---------- shared state ----------

  datatype Phase = Idle | Polling | LockArmed

  datatype Source = NoTrigger | LockScreen | Padlock

  datatype Shared = Shared(
    phase: Phase,            // g_state
    waitPhase: Phase,        // g_wait_state
    source: Source,          // g_trigger_source
    yieldActive: bool,
    yieldAck: bool,
    yieldDeadline: int,
    armNotBefore: int,
    lockSince: int,
    failedTouches: int,
    passwordValid: bool,
    passwordReady: bool,
    padlockArmed: bool,
    running: bool,
    loading: nat,            // password threads that have not stored their result yet
    loaded: nat,             // password threads about to set the ready flag
    clock: int)              // time(NULL)

  const YIELD_TIMEOUT := 300
  const GRACE := 4
  const MAX_FAILED_TOUCHES := 4
  const MAX_OPEN_FAILURES := 3
  const PASSWORD_WAITS := 200
  const STUCK_TICKS := 10
  const HEAL_TICKS := 7

  // ---------- what the outside world answers during one step ----------

  datatype Request =
    | NoRequest | ScreenLocked | ScreenUnlocked | TimerTick | BeginYield | EndYield
    | SettingOn | SettingOff | Quit

  datatype Opening = Opened | Refused | Failed

  datatype Capture = StartFailed | StartSilent | Nothing | TimedOut | UsbError | SaysMatch | SaysNoMatch

  datatype World = World(
    delay: nat,
    lockEnabled: bool, osAllows: bool, scanning: bool, screenLocked: bool, sensorPresent: bool,
    padlockSeen: bool, stillSecure: bool, threadStarted: bool,
    mounted: bool, passwordStored: bool, typable: bool,
    request: Request, opening: Opening, prints: nat, capture: Capture)

  // ---------- what the run leaves behind ----------

  datatype Answer = Match | NoMatch | NoFinger | Error | Aborted

  datatype Event =
    | OpenStarted | OpenDone | OpenFailed | Closed
    | Identified(captured: Phase, answer: Answer)
    | SawPolling                 // handle_match read POLLING again before acting
    | Typed | LockKey | YieldReady
    | Armed | Disarmed | Paused | Preempted

  // ---------- yield_is_active ----------

  datatype YieldAt = YLoad | YTime | YTest(now: int) | YStore

  datatype YieldNext = YGo(at: YieldAt) | YDone(active: bool)

  function YieldStep(sh: Shared, at: YieldAt): (Shared, YieldNext) {
    match at
    case YLoad => (sh, if sh.yieldActive then YGo(YTime) else YDone(false))
    case YTime => (sh, YGo(YTest(sh.clock)))
    case YTest(now) => (sh, if now < sh.yieldDeadline then YDone(true) else YGo(YStore))
    case YStore => (sh.(yieldActive := false), YDone(false))
  }

  // ---------- lockswipe_try_arm ----------

  datatype ArmAt =
    | AEnabled | AYield(y: YieldAt) | AOs | AScanning | AGrace | AScreen | ASensor | ARead | ACas

  datatype ArmNext = AGo(at: ArmAt) | ADone

  function ArmStep(sh: Shared, at: ArmAt, w: World): (Shared, ArmNext, Option<Event>) {
    match at
    case AEnabled => (sh, if w.lockEnabled then AGo(AYield(YLoad)) else ADone, None)
    case AYield(y) =>
      var (sh', next) := YieldStep(sh, y);
      (sh',
       match next
       case YGo(y') => AGo(AYield(y'))
       case YDone(active) => if active then ADone else AGo(AOs),
       None)
    case AOs => (sh, if w.osAllows then AGo(AScanning) else ADone, None)
    case AScanning => (sh, if w.scanning then AGo(AGrace) else ADone, None)
    case AGrace => (sh, if sh.clock < sh.armNotBefore then ADone else AGo(AScreen), None)
    case AScreen => (sh, if w.screenLocked then ADone else AGo(ASensor), None)
    case ASensor => (sh, if w.sensorPresent then AGo(ARead) else ADone, None)
    case ARead => (sh, if sh.phase == Polling then ADone else AGo(ACas), None)
    case ACas =>
      if sh.phase == Idle then (sh.(phase := LockArmed), ADone, Some(Armed)) else (sh, ADone, None)
  }

  /** A store to g_state that does not look at what it overwrites. */
  function BlindStore(sh: Shared, phase: Phase): (Shared, Option<Event>) {
    (sh.(phase := phase), if sh.phase == LockArmed then Some(Preempted) else None)
  }

  /** A compare-and-swap that takes g_state from LOCK_ARMED back to IDLE. */
  function DropArmed(sh: Shared, event: Event): (Shared, Option<Event>) {
    if sh.phase == LockArmed then (sh.(phase := Idle), Some(event)) else (sh, None)
  }

  // ---------- settle_to_idle ----------

  datatype SettleAt = SStore | SGrace | SArm(a: ArmAt)

  datatype SettleNext = SGo(at: SettleAt) | SDone

  function SettleStep(sh: Shared, at: SettleAt, w: World): (Shared, SettleNext, Option<Event>) {
    match at
    case SStore =>
      var (sh', event) := BlindStore(sh, Idle);
      (sh', SGo(SGrace), event)
    case SGrace => (sh.(armNotBefore := sh.clock + GRACE), SGo(SArm(AEnabled)), None)
    case SArm(a) =>
      var (sh', next, event) := ArmStep(sh, a, w);
      (sh', match next case AGo(a') => SGo(SArm(a')) case ADone => SDone, event)
  }

  // ---------- arm_polling_for_trigger ----------

  datatype TriggerAt =
    | TScanning | TYield(y: YieldAt) | TSensor | TSettle(s: SettleAt)
    | TSource | TReady | TFailures | TPolling | TSpawn | TNoThread(s: SettleAt) | TNoSource

  datatype TriggerNext = TGo(at: TriggerAt) | TDone

  function TriggerStep(sh: Shared, at: TriggerAt, source: Source, w: World)
    : (Shared, TriggerNext, Option<Event>)
  {
    match at
    case TScanning => (sh, TGo(if w.scanning then TYield(YLoad) else TSettle(SStore)), None)
    case TYield(y) =>
      var (sh', next) := YieldStep(sh, y);
      (sh',
       match next
       case YGo(y') => TGo(TYield(y'))
       case YDone(active) => TGo(if active then TSettle(SStore) else TSensor),
       None)
    case TSensor => (sh, TGo(if w.sensorPresent then TSource else TSettle(SStore)), None)
    case TSettle(s) =>
      var (sh', next, event) := SettleStep(sh, s, w);
      (sh', match next case SGo(s') => TGo(TSettle(s')) case SDone => TDone, event)
    case TSource => (sh.(source := source), TGo(TReady), None)
    case TReady => (sh.(passwordReady := false), TGo(TFailures), None)
    case TFailures => (sh.(failedTouches := 0), TGo(TPolling), None)
    case TPolling =>
      var (sh', event) := BlindStore(sh, Polling);
      (sh', TGo(TSpawn), event)
    case TSpawn =>
      if w.threadStarted then (sh.(loading := sh.loading + 1), TDone, None)
      else (sh, TGo(TNoThread(SStore)), None)
    case TNoThread(s) =>
      var (sh', next, event) := SettleStep(sh, s, w);
      (sh', match next case SGo(s') => TGo(TNoThread(s')) case SDone => TGo(TNoSource), event)
    case TNoSource => (sh.(source := NoTrigger), TDone, None)
  }

  // ---------- on_screen_unlocked ----------

  datatype UnlockAt = UStore | UGrace | USource | USince | UFailures | UPassword | UReady

  datatype UnlockNext = UGo(at: UnlockAt) | UDone

  function UnlockStep(sh: Shared, at: UnlockAt): (Shared, UnlockNext, Option<Event>) {
    match at
    case UStore =>
      var (sh', event) := BlindStore(sh, Idle);
      (sh', UGo(UGrace), event)
    case UGrace => (sh.(armNotBefore := sh.clock + GRACE), UGo(USource), None)
    case USource => (sh.(source := NoTrigger), UGo(USince), None)
    case USince => (sh.(lockSince := 0), UGo(UFailures), None)
    case UFailures => (sh.(failedTouches := 0), UGo(UPassword), None)
    case UPassword => (sh.(passwordValid := false), UGo(UReady), None)
    case UReady => (sh.(passwordReady := false), UDone, None)
  }

  // ---------- the main run loop ----------

  /** on_yield_request: the client begins or ends a yield. */
  datatype YieldRequestAt =
    | BeginTime | BeginDeadline(now: int) | BeginActive | BeginAck | BeginDisarm
    | EndExchange | EndAck | EndArm(a: ArmAt)

  /** auth_prompt_poll_callback. */
  datatype TickAt =
    | TickRead | TickSource | TickScreen | TickHeal(a: ArmAt) | TickScan | TickClear | TickDebounce | TickMark

  /** The run loop itself, switching the setting off, the start of on_screen_locked, and the way out. */
  datatype LoopAt = Waiting | Disarming | LockedRead | LockedSince | Quitting | Stopped

  datatype MainPc =
    | InLoop(l: LoopAt)
    | Arming(a: ArmAt)                           // start-up, or the setting was switched on
    | Triggering(t: TriggerAt, source: Source)
    | Unlocking(u: UnlockAt)
    | OnYield(r: YieldRequestAt)
    | OnTick(k: TickAt)

  const LOOP := InLoop(Waiting)

  datatype Main = Main(pc: MainPc, stuckTicks: nat, healTicks: nat)

  datatype MainNext = MainNext(sh: Shared, m: Main, event: Option<Event>)

  function MainGo(sh: Shared, m: Main, pc: MainPc): MainNext {
    MainNext(sh, m.(pc := pc), None)
  }

  function HandlerOf(request: Request): MainPc {
    match request
    case NoRequest => LOOP
    case ScreenLocked => InLoop(LockedRead)
    case ScreenUnlocked => Unlocking(UStore)
    case TimerTick => OnTick(TickRead)
    case BeginYield => OnYield(BeginTime)
    case EndYield => OnYield(EndExchange)
    case SettingOn => Arming(AEnabled)
    case SettingOff => InLoop(Disarming)
    case Quit => InLoop(Quitting)
  }

  function YieldRequestStep(sh: Shared, m: Main, at: YieldRequestAt, w: World): MainNext {
    match at
    case BeginTime => MainGo(sh, m, OnYield(BeginDeadline(sh.clock)))
    case BeginDeadline(now) => MainGo(sh.(yieldDeadline := now + YIELD_TIMEOUT), m, OnYield(BeginActive))
    case BeginActive => MainGo(sh.(yieldActive := true), m, OnYield(BeginAck))
    case BeginAck => MainGo(sh.(yieldAck := true), m, OnYield(BeginDisarm))
    case BeginDisarm =>
      var (sh', event) := DropArmed(sh, Disarmed);
      MainNext(sh', m.(pc := LOOP), event)
    case EndExchange =>
      MainGo(sh.(yieldActive := false), m, if sh.yieldActive then OnYield(EndAck) else LOOP)
    case EndAck => MainGo(sh.(yieldAck := false), m, OnYield(EndArm(AEnabled)))
    case EndArm(a) =>
      var (sh', next, event) := ArmStep(sh, a, w);
      MainNext(sh', m.(pc := match next case AGo(a') => OnYield(EndArm(a')) case ADone => LOOP), event)
  }

  /** The padlock timer once it has read a g_state other than POLLING. */
  function TickAfterRead(sh: Shared, m: Main): MainNext {
    var m := m.(stuckTicks := 0);
    if sh.phase != Idle then MainGo(sh, m, OnTick(TickScan))
    else if m.healTicks + 1 >= HEAL_TICKS then MainGo(sh, m.(healTicks := 0), OnTick(TickHeal(AEnabled)))
    else MainGo(sh, m.(healTicks := m.healTicks + 1), OnTick(TickScan))
  }

  function TickStep(sh: Shared, m: Main, at: TickAt, w: World): MainNext {
    match at
    case TickRead =>
      if sh.phase == Polling then MainGo(sh, m, OnTick(TickSource)) else TickAfterRead(sh, m)
    case TickSource =>
      if sh.source == LockScreen then MainGo(sh, m, OnTick(TickScreen))
      else MainGo(sh, m.(stuckTicks := 0), LOOP)
    case TickScreen =>
      if w.screenLocked then MainGo(sh, m.(stuckTicks := 0), LOOP)
      else if m.stuckTicks + 1 >= STUCK_TICKS then MainGo(sh, m.(stuckTicks := 0), Unlocking(UStore))
      else MainGo(sh, m.(stuckTicks := m.stuckTicks + 1), LOOP)
    case TickHeal(a) =>
      var (sh', next, event) := ArmStep(sh, a, w);
      MainNext(sh', m.(pc := OnTick(match next case AGo(a') => TickHeal(a') case ADone => TickScan)), event)
    case TickScan => MainGo(sh, m, OnTick(if w.padlockSeen then TickDebounce else TickClear))
    case TickClear => MainGo(sh.(padlockArmed := false), m, LOOP)
    case TickDebounce => MainGo(sh, m, if sh.padlockArmed then LOOP else OnTick(TickMark))
    case TickMark => MainGo(sh.(padlockArmed := true), m, Triggering(TScanning, Padlock))
  }

  function LoopStep(sh: Shared, m: Main, at: LoopAt, w: World): MainNext {
    match at
    case Waiting => MainGo(sh, m, HandlerOf(w.request))
    case Disarming =>
      var (sh', event) := DropArmed(sh, Disarmed);
      MainNext(sh', m.(pc := LOOP), event)
    case LockedRead => MainGo(sh, m, if sh.phase == Polling then LOOP else InLoop(LockedSince))
    case LockedSince => MainGo(sh.(lockSince := sh.clock), m, Triggering(TScanning, LockScreen))
    case Quitting => MainGo(sh.(running := false), m, InLoop(Stopped))
    case Stopped => MainGo(sh, m, InLoop(Stopped))
  }

  function MainStep(sh: Shared, m: Main, w: World): MainNext {
    match m.pc
    case InLoop(at) => LoopStep(sh, m, at, w)
    case Arming(a) =>
      var (sh', next, event) := ArmStep(sh, a, w);
      MainNext(sh', m.(pc := match next case AGo(a') => Arming(a') case ADone => LOOP), event)
    case Triggering(t, source) =>
      var (sh', next, event) := TriggerStep(sh, t, source, w);
      MainNext(sh', m.(pc := match next case TGo(t') => Triggering(t', source) case TDone => LOOP), event)
    case Unlocking(u) =>
      var (sh', next, event) := UnlockStep(sh, u);
      MainNext(sh', m.(pc := match next case UGo(u') => Unlocking(u') case UDone => LOOP), event)
    case OnYield(at) => YieldRequestStep(sh, m, at, w)
    case OnTick(at) => TickStep(sh, m, at, w)
  }

  // ---------- the polling thread ----------

  datatype SessionAt =
    | Head | Ack | Notify | ReadPhase | Want(y: YieldAt) | NotWanted
    | OpenCall | Opening | CheckPrints | EmptyClose | Exit | Ended

  datatype IdentifyAt =
    | SetWait | Start | AbortPhase | AbortYield(y: YieldAt) | AbortRunning | Finger | Spoiled(answer: Answer)

  /** lockswipe_pause and abandon_episode. */
  datatype GiveUpAt =
    | PauseGrace(seconds: nat) | PauseCas | AbandonSource | AbandonFailures | AbandonSettle(s: SettleAt)

  /** trigger_touch_lock. */
  datatype TouchAt =
    | TouchScreen | TouchCas | TouchGrace | TouchPost | TouchVerify | TouchPhase | TouchArm(a: ArmAt)

  /** handle_match. */
  datatype MatchAt =
    | MatchReady(waits: nat) | MatchPhase(waits: nat) | MatchRead | MatchSnapshot | MatchSource
    | MatchFocus | MatchSettle | MatchRecheck | MatchType | MatchDone | MatchIdle(s: SettleAt)

  /** handle_no_match. */
  datatype MissAt = MissCount | MissSource | MissFailures | MissSettle(s: SettleAt)

  datatype PollPc =
    | InSession(session: SessionAt)
    | InIdentify(identify: IdentifyAt)
    | InGiveUp(giveUp: GiveUpAt)
    | InTouch(touch: TouchAt)
    | InMatch(hit: MatchAt)
    | InMiss(miss: MissAt)

  const HEAD := InSession(Head)

  datatype Poller = Poller(
    pc: PollPc,
    st: Phase,                // the state captured at the top of the iteration
    sessionOpen: bool,        // the thread's own view of the session
    openFailures: nat,
    errorStreak: nat,
    target: Source,           // handle_match's copy of the trigger source
    password: bool,           // handle_match's copy of "a password is cached"
    deviceHeld: bool,         // the USB device is claimed by the session API
    agentOpen: bool,          // s_agent_open
    prints: nat)              // s_agent_prints

  datatype PollNext = PollNext(sh: Shared, p: Poller, event: Option<Event>)

  function PollGo(sh: Shared, p: Poller, pc: PollPc): PollNext {
    PollNext(sh, p.(pc := pc), None)
  }

  function PauseFor(seconds: nat): PollPc { InGiveUp(PauseGrace(seconds)) }

  const ABANDON := InGiveUp(AbandonSource)

  /** metallica_mis_agent_close: nothing to do unless a session is open. */
  function CloseSession(sh: Shared, p: Poller, pc: PollPc): PollNext {
    if p.agentOpen then PollNext(sh, p.(pc := pc, deviceHeld := false, agentOpen := false), Some(Closed))
    else PollGo(sh, p, pc)
  }

  /** metallica_mis_agent_open comes back with the device claimed or released. */
  function OpenReturns(sh: Shared, p: Poller, w: World): PollNext {
    match w.opening
    case Opened =>
      PollNext(sh, p.(pc := InSession(CheckPrints), agentOpen := true, prints := w.prints), Some(OpenDone))
    case Refused =>
      PollNext(sh, p.(pc := if p.st == LockArmed then PauseFor(300) else ABANDON, deviceHeld := false),
               Some(OpenFailed))
    case Failed =>
      var failures := p.openFailures + 1;
      var p := p.(deviceHeld := false, openFailures := failures);
      if failures < MAX_OPEN_FAILURES then PollNext(sh, p.(pc := HEAD), Some(OpenFailed))
      else if p.st == LockArmed then PollNext(sh, p.(pc := PauseFor(60), openFailures := 0), Some(OpenFailed))
      else PollNext(sh, p.(pc := ABANDON), Some(OpenFailed))
  }

  function SessionStep(sh: Shared, p: Poller, at: SessionAt, w: World): PollNext {
    match at
    case Head => PollGo(sh, p, InSession(if sh.running then Ack else Exit))
    case Ack =>
      if p.sessionOpen then PollGo(sh, p, InSession(ReadPhase))
      else PollGo(sh.(yieldAck := false), p, InSession(if sh.yieldAck then Notify else ReadPhase))
    case Notify => PollNext(sh, p.(pc := InSession(ReadPhase)), Some(YieldReady))
    case ReadPhase =>
      PollGo(sh, p.(st := sh.phase), InSession(if sh.phase == Idle then NotWanted else Want(YLoad)))
    case Want(y) =>
      var (sh', next) := YieldStep(sh, y);
      PollGo(sh', p,
             match next
             case YGo(y') => InSession(Want(y'))
             case YDone(active) =>
               if active then InSession(NotWanted)
               else if p.sessionOpen then InIdentify(SetWait) else InSession(OpenCall))
    case NotWanted =>
      var p := p.(openFailures := 0, errorStreak := 0);
      if p.sessionOpen then CloseSession(sh, p.(sessionOpen := false), HEAD) else PollGo(sh, p, HEAD)
    case OpenCall =>
      if p.agentOpen then PollGo(sh, p, InSession(CheckPrints))
      else PollNext(sh, p.(pc := InSession(SessionAt.Opening), deviceHeld := true), Some(OpenStarted))
    case Opening => OpenReturns(sh, p, w)
    case CheckPrints =>
      if p.prints == 0 then PollGo(sh, p, InSession(EmptyClose))
      else PollGo(sh, p.(sessionOpen := true, openFailures := 0), InIdentify(SetWait))
    case EmptyClose => CloseSession(sh, p, if p.st == LockArmed then PauseFor(300) else ABANDON)
    case Exit =>
      if p.sessionOpen then CloseSession(sh, p.(sessionOpen := false), InSession(Ended))
      else PollGo(sh, p, InSession(Ended))
    case Ended => PollGo(sh, p, InSession(Ended))
  }

  /** metallica_mis_agent_identify returns `answer`; the loop decides what to do with it. */
  function Answered(sh: Shared, p: Poller, answer: Answer): PollNext {
    var event := Some(Identified(p.st, answer));
    match answer
    case Match =>
      var pc := if p.st == LockArmed then InTouch(TouchScreen) else InMatch(MatchReady(0));
      PollNext(sh, p.(pc := pc, errorStreak := 0), event)
    case NoMatch =>
      PollNext(sh, p.(pc := if p.st == LockArmed then HEAD else InMiss(MissCount), errorStreak := 0), event)
    case NoFinger => PollNext(sh, p.(pc := HEAD, errorStreak := 0), event)
    case Error => PollNext(sh, p.(pc := InIdentify(Spoiled(Error))), event)
    case Aborted => PollNext(sh, p.(pc := InIdentify(Spoiled(Aborted))), event)
  }

  /** After an error or an abort the session is closed first, then repeated errors are acted on. */
  function SpoiledStep(sh: Shared, p: Poller, answer: Answer): PollNext {
    var closed := CloseSession(sh, p, HEAD);
    var p := closed.p.(sessionOpen := false);
    if answer != Error then closed.(p := p)
    else if p.errorStreak + 1 < MAX_OPEN_FAILURES then closed.(p := p.(errorStreak := p.errorStreak + 1))
    else closed.(p := p.(pc := if p.st == LockArmed then PauseFor(60) else ABANDON, errorStreak := 0))
  }

  function IdentifyStep(sh: Shared, p: Poller, at: IdentifyAt, w: World): PollNext {
    match at
    case SetWait => PollGo(sh.(waitPhase := p.st), p, InIdentify(Start))
    case Start =>
      if !p.agentOpen || w.capture == StartFailed then Answered(sh, p, Error)
      else if w.capture == StartSilent then Answered(sh, p, NoFinger)
      else PollGo(sh, p, InIdentify(AbortPhase))
    case AbortPhase =>
      if sh.phase != sh.waitPhase then Answered(sh, p, Aborted) else PollGo(sh, p, InIdentify(AbortYield(YLoad)))
    case AbortYield(y) =>
      var (sh', next) := YieldStep(sh, y);
      (match next
       case YGo(y') => PollGo(sh', p, InIdentify(AbortYield(y')))
       case YDone(active) => if active then Answered(sh', p, Aborted) else PollGo(sh', p, InIdentify(AbortRunning)))
    case AbortRunning => if sh.running then PollGo(sh, p, InIdentify(Finger)) else Answered(sh, p, Aborted)
    case Finger =>
      (match w.capture
       case TimedOut => Answered(sh, p, NoFinger)
       case UsbError => Answered(sh, p, Error)
       case SaysMatch => Answered(sh, p, Match)
       case SaysNoMatch => Answered(sh, p, NoMatch)
       case _ => PollGo(sh, p, InIdentify(AbortPhase)))
    case Spoiled(answer) => SpoiledStep(sh, p, answer)
  }

  function GiveUpStep(sh: Shared, p: Poller, at: GiveUpAt, w: World): PollNext {
    match at
    case PauseGrace(seconds) => PollGo(sh.(armNotBefore := sh.clock + seconds), p, InGiveUp(PauseCas))
    case PauseCas =>
      var (sh', event) := DropArmed(sh, Paused);
      PollNext(sh', p.(pc := HEAD), event)
    case AbandonSource => PollGo(sh.(source := NoTrigger), p, InGiveUp(AbandonFailures))
    case AbandonFailures => PollGo(sh.(failedTouches := 0), p, InGiveUp(AbandonSettle(SStore)))
    case AbandonSettle(s) =>
      var (sh', next, event) := SettleStep(sh, s, w);
      PollNext(sh', p.(pc := match next case SGo(s') => InGiveUp(AbandonSettle(s')) case SDone => HEAD), event)
  }

  function MissStep(sh: Shared, p: Poller, at: MissAt, w: World): PollNext {
    match at
    case MissCount =>
      var fails := sh.failedTouches + 1;
      PollGo(sh.(failedTouches := fails), p, if fails >= MAX_FAILED_TOUCHES then InMiss(MissSource) else HEAD)
    case MissSource => PollGo(sh.(source := NoTrigger), p, InMiss(MissFailures))
    case MissFailures => PollGo(sh.(failedTouches := 0), p, InMiss(MissSettle(SStore)))
    case MissSettle(s) =>
      var (sh', next, event) := SettleStep(sh, s, w);
      PollNext(sh', p.(pc := match next case SGo(s') => InMiss(MissSettle(s')) case SDone => HEAD), event)
  }

  function TouchStep(sh: Shared, p: Poller, at: TouchAt, w: World): PollNext {
    match at
    case TouchScreen => PollGo(sh, p, if w.screenLocked then HEAD else InTouch(TouchCas))
    case TouchCas =>
      if sh.phase == LockArmed then PollGo(sh.(phase := Idle), p, InTouch(TouchGrace)) else PollGo(sh, p, HEAD)
    case TouchGrace => PollGo(sh.(armNotBefore := sh.clock + GRACE), p, InTouch(TouchPost))
    case TouchPost => PollNext(sh, p.(pc := InTouch(TouchVerify)), Some(LockKey))
    case TouchVerify => PollGo(sh, p, if w.screenLocked then HEAD else InTouch(TouchPhase))
    case TouchPhase => PollGo(sh, p, if sh.phase == Idle then InTouch(TouchArm(AEnabled)) else HEAD)
    case TouchArm(a) =>
      var (sh', next, event) := ArmStep(sh, a, w);
      PollNext(sh', p.(pc := match next case AGo(a') => InTouch(TouchArm(a')) case ADone => HEAD), event)
  }

  function MatchStep(sh: Shared, p: Poller, at: MatchAt, w: World): PollNext {
    match at
    case MatchReady(waits) =>
      PollGo(sh, p, InMatch(if waits < PASSWORD_WAITS && !sh.passwordReady then MatchPhase(waits) else MatchRead))
    case MatchPhase(waits) =>
      PollGo(sh, p, InMatch(if sh.phase == Polling then MatchReady(waits + 1) else MatchRead))
    case MatchRead =>
      if sh.phase == Polling then PollNext(sh, p.(pc := InMatch(MatchSnapshot)), Some(SawPolling))
      else PollGo(sh, p, HEAD)
    case MatchSnapshot => PollGo(sh, p.(password := sh.passwordValid), InMatch(MatchSource))
    case MatchSource =>
      PollGo(sh, p.(target := sh.source),
             InMatch(if sh.source == Padlock then MatchFocus
                     else if !p.password then MatchDone
                     else if sh.source == LockScreen then MatchSettle else MatchType))
    case MatchFocus => PollGo(sh, p, InMatch(if w.stillSecure && p.password then MatchType else MatchDone))
    case MatchSettle => PollGo(sh, p, InMatch(MatchRecheck))
    case MatchRecheck => PollGo(sh, p, InMatch(if sh.phase == Polling then MatchType else MatchDone))
    case MatchType => PollNext(sh, p.(pc := InMatch(MatchDone)), if w.typable then Some(Typed) else None)
    case MatchDone => PollGo(sh.(source := NoTrigger), p, InMatch(MatchIdle(SStore)))
    case MatchIdle(s) =>
      var (sh', next, event) := SettleStep(sh, s, w);
      PollNext(sh', p.(pc := match next case SGo(s') => InMatch(MatchIdle(s')) case SDone => HEAD), event)
  }

  function PollStep(sh: Shared, p: Poller, w: World): PollNext {
    match p.pc
    case InSession(at) => SessionStep(sh, p, at, w)
    case InIdentify(at) => IdentifyStep(sh, p, at, w)
    case InGiveUp(at) => GiveUpStep(sh, p, at, w)
    case InTouch(at) => TouchStep(sh, p, at, w)
    case InMatch(at) => MatchStep(sh, p, at, w)
    case InMiss(at) => MissStep(sh, p, at, w)
  }

  // ---------- the whole agent ----------

  datatype Agent = Agent(sh: Shared, m: Main, p: Poller)

  datatype Actor = MainLoop | PollThread | PasswordThread

  datatype Choice = Choice(actor: Actor, w: World)

  datatype Next = Next(agent: Agent, event: Option<Event>)

  const START := Agent(
    Shared(Idle, Idle, NoTrigger, false, false, 0, 0, 0, 0, false, false, false, true, 0, 0, 0),
    Main(Arming(AEnabled), 0, 0),
    Poller(HEAD, Idle, false, 0, 0, NoTrigger, false, false, false, 0))

  /** A loader thread stores what it read from the volume, and only then raises the ready flag. */
  function LoaderStep(sh: Shared, w: World): Shared {
    if sh.loading > 0 && w.threadStarted then
      sh.(loading := sh.loading - 1, loaded := sh.loaded + 1,
          passwordValid := if w.mounted then w.passwordStored else sh.passwordValid)
    else if sh.loaded > 0 then sh.(loaded := sh.loaded - 1, passwordReady := true)
    else sh
  }

  function MainTurn(a: Agent, sh: Shared, w: World): Next {
    var n := MainStep(sh, a.m, w);
    Next(Agent(n.sh, n.m, a.p), n.event)
  }

  function PollTurn(a: Agent, sh: Shared, w: World): Next {
    var n := PollStep(sh, a.p, w);
    Next(Agent(n.sh, a.m, n.p), n.event)
  }

  function Later(sh: Shared, w: World): Shared { sh.(clock := sh.clock + w.delay) }

  function Step(a: Agent, c: Choice): Next {
    match c.actor
    case MainLoop => MainTurn(a, Later(a.sh, c.w), c.w)
    case PollThread => PollTurn(a, Later(a.sh, c.w), c.w)
    case PasswordThread => Next(a.(sh := LoaderStep(Later(a.sh, c.w), c.w)), None)
  }

  /** The agent after a schedule, from start-up. */
  function Run(schedule: seq<Choice>): Agent {
    if schedule == [] then START
    else Step(Run(schedule[..|schedule| - 1]), schedule[|schedule| - 1]).agent
  }

  /** The events a schedule leaves behind, in order. */
  function Trace(schedule: seq<Choice>): seq<Event> {
    if schedule == [] then []
    else
      var before := schedule[..|schedule| - 1];
      var event := Step(Run(before), schedule[|schedule| - 1]).event;
      Trace(before) + if event.Some? then [event.value] else []
  }
}
