# Proofs about the hack-touchid fingerprint client and agent

This project models the parts of hack-touchid that carry state or arithmetic worth proving, and proves what they
promise. It stands beside the sources; `dafny verify dfyconfig.toml` checks all of it.

* **The lock agent** (`LockAgent*.dfy`): the main run loop, the polling thread and the password loader share atomics. Each
  step is one shared access, one system call or one call of the session API, taken by any thread in any order; the sensor,
  the clock and the person answer as they like. `LockAgentTrace` is the contract of the session API as an automaton over
  events, with no reference to the agent; `LockAgentRuns` shows that every run obeys it and that armings are conserved;
  `LockAgentYield`, `LockAgentNotice`, `LockAgentEnd`, `LockAgentHandover` and `LockAgentTimeout` show when a yield is
  safe, how often it is acknowledged, when that stops with its end, when it is honoured, and exactly when it can be lost;
  `LockAgentTyping` shows what stands before a typed password, and `LockAgentPassword` how long it stays in memory.
  `LockAgentEpisode` has the pieces from which reachable runs are put together.
* **The sensor's commands** (`Bytes`, `Sensor`, `Flash`, `Database`, `CalibrationMath`, `Calibrate`, `EnrollReply`,
  `FingerData`, `Enroll`): the code packs commands into bytes and a byte-level device decodes them, keeps flash in which
  programming only clears bits, and a tree of storage, users and fingers. Answers may be lost, with the command carried
  out or not, and commands may be refused. Properties are stated end to end on the device's state and on the log of
  messages sent and replies got. `Enroll.Run` is a whole enrollment.
* **Swipe reconstruction** (`SwipeCapture`, `MedianFilter`, `SwipeAssembly`): recording lines from a stream cut into
  reads, best offsets, the windowed median, and resampling with interpolation.
* **Small stores and parsers** (`Text`, `NameCleaning`, `PrintNames`, `NameFile`, `VersionFile`, `AxSearch`).

Loops and buffers of the C code are loops and arrays here, proved against definitions that do not mention them. Where a
property fails in a corner a lemma gives the exact condition, and, where it takes a run or a table to get there, another
lemma gives that:

* a yield the client has just begun can be dropped by a polling thread that is past the deadline test of an older one
  (`LockAgentTimeout.YieldSurvivesIff`, `YieldCanBeLost`), although the comment at `metallica/metallica_mis_agent.c:381-383`
  speaks only of crashed clients;
* a password can be typed with neither of the two re-checks, after the screen was unlocked, if the trigger is cleared
  between the MATCH and the read of it (`LockAgentTyping.TypingIsRecheckedIff`, `TypingCanGoUnchecked`);
* the notification can follow the end of its yield: an end that finds the yield timed out leaves the acknowledgement
  pending, and one that finds it active cannot withdraw an acknowledgement the polling thread has taken
  (`LockAgentEnd.EndSilencesIff`, `NoticeAfterTimedOutEnd`, `NoticeAfterEnd`);
* the password can stay in the memory of an idle agent, contrary to the comment at `metallica/metallica_mis_agent.c:792`:
  the end of an episode does not clear it, only an unlock does, and a loader that is still at work then stores it again
  (`LockAgentPassword.ResidentIff`, `UnlockKeepsItOutIff`, `PasswordOutlivesEpisode`, `LoaderComesTooLate`); and a loader
  of an earlier episode can raise the ready flag of a later one (`ReadyIsOwnIff`, `ReadyCanBeStale`);
* a flash read is exact only if the device gives whole chunks (`Flash.ReadIsExactIff`);
* the check for a taken name passes over a print listed under slot 0 (`NameFile.TableIsProperIff`,
  `PrintNames.SlotZeroIsOverlooked`), a full table silently keeps no new name (`PrintNames.NamingIsExact`,
  `NameFile.SeventeenthIsLost`), and names of slots above 10, which the menu can give, do not survive a restart
  (`NameFile.FileRestoresIff`, `EleventhIsForgotten`);
* a finger record of a template without an id could be truncated; only the loop's wait for an id rules it out
  (`FingerData.TemplateAloneCanOverflow`);
* the version order is the intended one only below 100 and 10000 (`VersionFile.LexicographicIff`).

The header comments at `metallica/metallica_mis_enroll.h:32` (enrollment wipes nothing) and
`metallica/metallica_mis_db.h:20-24` (nothing creates records) are older than the code; the model follows the code.

## Model

| member | source | states |
|---|---|---|
| LockAgentYield.NoSessionAfterReady | metallica/metallica_mis_agent.c:1227-1271 | In every run the yield-ready notification is sent only while no sensor session is held or being opened, and from there on none is opened for as long as the yield flag stays set |
| LockAgentYield.YieldExcludesSession | metallica/metallica_mis_agent.c:389-413 | In every reachable state: a set yield flag whose acknowledgement has been taken means the device is free, except between the begin handler's two stores |
| LockAgentYield.RunKeepsYield | metallica/metallica_mis_agent.c:389-413 | The inductive invariant of every run: a held session, or a polling thread past its want-session test, together with a set flag means the acknowledgement is still pending or the begin handler is between its stores |
| LockAgentYield.PollYields | metallica/metallica_mis_agent.c:1220-1321 | One step of the polling thread: the flag is only lowered, and the thread moves towards a session only while the flag is down |
| LockAgentYield.MainYields | metallica/metallica_mis_agent.c:398-413 | One step of the main loop: which stores may raise the flag and the pending acknowledgement, and that no other handler touches them |
| LockAgentYield.FreeAt | metallica/metallica_mis_agent.c:1229-1242 | Between any two neighbouring states of a run, a free device stays free under a set flag, and the notification itself finds and leaves it free |
| LockAgentHandover.YieldIsHonoured | metallica/metallica_mis_agent.c:1220-1321 | Bounded liveness: after 434 steps of the polling thread under a set flag the device is released, and a notification that was due has been sent in between, unless the thread has stopped; whatever the sensor answers and the main loop does |
| LockAgentHandover.StepIsCloser | metallica/metallica_mis_agent.c:1220-1321 | Every step of the polling thread under a set flag lowers an explicit distance to the handover, and no other step raises it |
| LockAgentHandover.MatchIsCloser | metallica/metallica_mis_agent.c:1116-1200 | handle_match is bounded: its wait for the password counts down and every other step moves on |
| LockAgentNotice.NoticesNeverExceedBegins | metallica/metallica_mis_agent.c:1229-1242 | In every run the notifications sent and the one still due are together at most the begins handled |
| LockAgentNotice.DueIsSaid | metallica/metallica_mis_agent.c:1229-1242 | Under a flag that stays set, a notification that is due stays due until it is in the trace |
| LockAgentNotice.StepNotices | metallica/metallica_mis_agent.c:398-413 | Any step of any thread: only a begin makes a notification due, at most one, and only an end withdraws one unsaid |
| LockAgentEnd.EndSilencesIff | metallica/metallica_mis_agent.c:407-412 | In every run, right after an end has withdrawn what it can: no continuation sends a notification before another begin if and only if the polling thread had not taken the acknowledgement, and the end had not found the flag lowered with the acknowledgement pending in an agent that can still get to it |
| LockAgentEnd.SilentIff | metallica/metallica_mis_agent.c:1227-1230 | From any point of any run: no continuation sends a notification without another begin if and only if none is taken and none is pending that the polling thread can still get to; if one is, some steps of the polling thread alone bring it |
| LockAgentEnd.DueAfterEndIff | metallica/metallica_mis_agent.c:407-412 | What an end leaves due, in every run and with the polling thread moving between the exchange and the store: a notification exactly if it found the flag lowered with the acknowledgement pending, or the thread has taken it |
| LockAgentEnd.EndWithdrawsIff | metallica/metallica_mis_agent.c:407-412 | The same for an undisturbed end, from any state |
| LockAgentEnd.NoticeAfterTimedOutEnd | metallica/metallica_mis_agent.c:407-412 | A reachable run in which a yield times out, its end runs to the last step, and the notification is sent after that |
| LockAgentEnd.NoticeAfterEnd | metallica/metallica_mis_agent.c:1227-1230 | A reachable run in which the end finds the flag set and runs to its last step between the taking of the acknowledgement and the notification |
| LockAgentEnd.PollNears | metallica/metallica_mis_agent.c:1220-1321 | With an acknowledgement pending in a running agent, every step of the polling thread in a world where nothing works lowers an explicit distance to the notification |
| LockAgentTimeout.YieldSurvivesIff | metallica/metallica_mis_agent.c:389-406 | At the moment a begin has set the flag: the new yield survives every continuation that neither ends it nor reaches its deadline if and only if the polling thread has not already found an older deadline passed |
| LockAgentTimeout.YieldCanBeLost | metallica/metallica_mis_agent.c:389-396 | A reachable run in which the client has begun a yield, has not ended it, its deadline has not come, and the agent holds the sensor |
| LockAgentTimeout.RunKeepsTimes | metallica/metallica_mis_agent.c:389-396 | In every run a time read for the deadline test lies in the past |
| LockAgentTimeout.SafeStaysSafe | metallica/metallica_mis_agent.c:389-396 | A set flag nobody has decided to lower stays set, with its deadline, throughout any undisturbed continuation |
| LockAgentTyping.TypingIsRecheckedIff | metallica/metallica_mis_agent.c:1116-1200 | Every typing in every run is preceded by a read of the trigger, and between that and the typing a re-check (POLLING read again, or the padlock field still secure) was passed if and only if the trigger read was not cleared |
| LockAgentTyping.TypingCanGoUnchecked | metallica/metallica_mis_agent.c:784-801 | A reachable run in which the screen is unlocked by other means between the MATCH and the read of the trigger, and the password is typed in IDLE with no re-check |
| LockAgentTyping.SourceBehind | metallica/metallica_mis_agent.c:1116-1200 | A thread that may still type has read the trigger in this handling of the match, and what that read decides how far it has got with the re-check |
| LockAgentPassword.ResidentIff | metallica/metallica_mis_agent.c:742-797 | In every run the password is in memory if and only if some loader stored it and since then no unlock cleared it and no loader found none; whether the agent is idle plays no part |
| LockAgentPassword.UnlockKeepsItOutIff | metallica/metallica_mis_agent.c:792-797 | An unlock keeps the password out of memory, in every continuation that starts no loader, if and only if no loader has its result still to store |
| LockAgentPassword.StaysInIff | metallica/metallica_mis_agent.c:1180-1200 | A password in memory stays there, in every continuation without an unlock or a new loader, if and only if no loader is still at work; handle_match does not clear it |
| LockAgentPassword.ReadyIsOwnIff | metallica/metallica_mis_agent.c:832-846 | A ready flag that has just been lowered stays down, until another loader is started, if and only if every earlier loader has done all it has to do |
| LockAgentPassword.PasswordOutlivesEpisode | metallica/metallica_mis_agent.c:1180-1200 | A reachable run in which a padlock episode ends in IDLE with the password in memory, where it stays until an unlock or a new loader |
| LockAgentPassword.LoaderComesTooLate | metallica/metallica_mis_agent.c:742-772 | A reachable run in which an unlock has cleared the password and the loader of the episode then stores it in the idle agent |
| LockAgentPassword.ReadyCanBeStale | metallica/metallica_mis_agent.c:766-772 | A reachable run in which the loader of one episode has raised the ready flag of the next, whose password is not there |
| LockAgentPassword.MainTouchesPassword | metallica/metallica_mis_agent.c:777-846 | Any step of the main loop: the one that clears the password, the two that lower its ready flag, the one that starts a loader, and that no other touches them |
| LockAgentPassword.PollKeeps | metallica/metallica_mis_agent.c:1116-1200 | No step of the polling thread changes the password, its ready flag or the loaders |
| LockAgentRuns.RunObeysProtocol | metallica/metallica_mis_agent.c:1220-1321 | Every trace of every interleaving is accepted by the session automaton, and the thread's locals agree with the session API throughout |
| LockAgentRuns.LoopHeadsAgree | metallica/metallica_mis_enroll.c:889-955 | At every loop head session_open, s_agent_open and the claimed device agree; identify and everything after it happen only with the session open; the stopped thread holds nothing |
| LockAgentTrace.TypestateAt | metallica/metallica_mis_enroll.c:889-955 | At any position of an accepted trace: open only when nothing is held, identify only on an open and usable session, and after an error or abort the very next call on the sensor is the close |
| LockAgentTrace.SessionIsDecidedByLastCall | metallica/metallica_mis_enroll.c:889-955 | The state of the session is a function of the last call on the sensor alone |
| LockAgentTrace.ActsAreEarned | metallica/metallica_mis_agent.c:1116-1200 | Every typed password goes back to a MATCH captured in POLLING with POLLING read again after it, every lock keystroke to a MATCH captured in LOCK_ARMED, with no call on the sensor in between |
| LockAgentTrace.ActsNeverExceedMatches | metallica/metallica_mis_agent.c:1273-1317 | In any accepted trace typings and lock keystrokes, plus an unspent match, never exceed the MATCH answers |
| LockAgentRuns.ActsNeverExceedMatchesInRun | metallica/metallica_mis_agent.c:1273-1317 | The same over every run of the agent |
| LockAgentRuns.ArmingsAreConserved | metallica/metallica_mis_agent.c:489-555 | In every run the armings equal lock keystrokes posted or about to be, plus disarms, pauses and pre-empting blind stores, plus one if the state is LOCK_ARMED now |
| LockAgentRuns.StepConserves | metallica/metallica_mis_agent.c:489-555 | Any step of any thread keeps that balance |
| LockAgentRuns.MainBalances | metallica/metallica_mis_agent.c:777-845 | The lock, unlock, padlock, setting and yield handlers, blind stores included, keep the balance |
| LockAgentRuns.MatchKeepsProtocol | metallica/metallica_mis_agent.c:1116-1200 | Every step of handle_match keeps the trace accepted: nothing is typed before POLLING was read again |
| LockAgentRuns.TouchKeepsProtocol | metallica/metallica_mis_agent.c:539-555 | Every step of trigger_touch_lock keeps the trace accepted: the keystroke follows a successful compare-and-swap and happens at most once |
| LockAgentRuns.SessionKeepsProtocol | metallica/metallica_mis_agent.c:1227-1271 | Every step of opening, counting prints and closing keeps the trace accepted and the locals in agreement |
| LockAgentRuns.IdentifyKeepsProtocol | metallica/metallica_mis_enroll.c:936-955 | Every way identify can end, aborts by state change, yield or shutdown included, keeps the trace accepted |
| Flash.WriteThenRead | metallica/metallica_mis_flash.c:194-336 | Round trip through the byte codec: what a successful write_flash_all put on an erased range, a successful read_flash_all returns, for every start address and length; every byte outside is unchanged |
| Flash.WriteFlashAll | metallica/metallica_mis_flash.c:239-255 | Success means the whole buffer is programmed and every write and cleanup was answered well; otherwise a whole number of chunks is programmed; nothing else changes in any partition; every write is bracketed |
| Flash.ReadFlashAll | metallica/metallica_mis_flash.c:307-336 | Success fills the buffer with the partition's bytes, except the gaps a short reply leaves in a chunk |
| Flash.ReadIsExactIff | metallica/metallica_mis_flash.c:324-332 | The read is exact whatever the buffer held before if and only if the device gives as many bytes as a chunk asks for |
| Flash.WriteFlash | metallica/metallica_mis_flash.c:194-237 | The exact three messages sent; success exactly when write and cleanup both went well; the store has the whole buffer or is as before |
| Flash.ReadFlash | metallica/metallica_mis_flash.c:259-305 | Success returns the device's bytes of the range, never more than the caller's buffer takes |
| Flash.EraseFlash | metallica/metallica_mis_flash.c:174-192 | Success exactly when erase and cleanup both went well, and then the partition is blank; the cleanup follows the erase on every path |
| Flash.EnableWrites | metallica/metallica_mis_flash.c:164-170 | Sends the blob; success exactly when its status is 0 |
| Flash.CallCleanups | metallica/metallica_mis_flash.c:152-162 | Sends 0x1a; status 0 and 0x0491 both count as success |
| Flash.WriteDecodes | metallica/metallica_mis_flash.c:206-220 | A packed write decodes to the write meant, address and length fields included |
| Flash.ReadDecodes | metallica/metallica_mis_flash.c:262-275 | A packed read decodes to the read meant |
| Flash.ProgrammedOnErased | metallica/metallica_mis_flash.c:239-255 | On erased flash, where programming only clears bits, the data is taken as it is and nothing outside changes |
| Flash.ProgrammedInPieces | metallica/metallica_mis_flash.c:245-253 | Writing two adjoining pieces is writing them as one |
| Sensor.Device.Transfer | metallica/metallica_mis_flash.c:152-170 | The byte-level device: one message on the wire and one answer, lost, refused with a status word, or carried out with a reply of any content where that is the sensor's own affair; always one that `Answers` allows |
| Sensor.ServeIsGood | metallica/metallica_mis_db.c:78-213 | What the device does for any command meets the relation the callers rely on, and keeps its records well formed |
| Enroll.DeviceCanEnroll | metallica/metallica_mis_enroll.c:179-434 | The device can give every reply that a completing enrollment needs: a scan without error, a key, and an image with template and id |
| Sensor.Continued | metallica/metallica_mis_flash.c:174-237 | Two stretches of the log join: mutations stay directly between write-enable and cleanup, and answered well if they were in both |
| Database.WipeUsers | metallica/metallica_mis_db.c:267-302 | Whatever the sensor does, at most the first 64 users go, in order, and 0 is returned only when none is left; a count above 0 is the number gone; a reliable sensor with n listable users loses exactly min(n, 64), and 0 is returned exactly when that was all; users that do not fit one reply make it fail with nothing deleted |
| Database.WipesEmptyIff | metallica/metallica_mis_db.c:267-302 | Removing the first 64 k times empties n users if and only if n <= 64 k |
| Database.WipeAgain | metallica/metallica_mis_db.c:267-302 | k calls of wipe_users on a reliable sensor whose users fit one reply remove the first min(n, 64 k) of them, so they empty it if and only if n <= 64 k, and exactly then the last call returns 0 |
| Database.DeleteUsers | metallica/metallica_mis_db.c:282-287 | The deletion loop removes a prefix of the listed users, all of them on success |
| Database.DelRecord | metallica/metallica_mis_db.c:166-173 | Deletes the user with the id, fingers included, or leaves everything |
| Database.GetUserStorage | metallica/metallica_mis_db.c:78-126 | 0 comes with what the storage really holds, 1 means there is none; a storage too large for one reply is a failure; nothing changes |
| Database.ParseStorage | metallica/metallica_mis_db.c:97-114 | Accepts exactly the replies whose counts fit their length, reads only inside them, and keeps the first 64 users |
| Database.StorageReplyParses | metallica/metallica_mis_db.c:97-114 | The reply a device gives for a storage reads back to its id, its user count and every user's id |
| Database.NewRecord | metallica/metallica_mis_db.c:175-213 | Nothing is sent for more than 65535 bytes; success exactly when command and cleanup were both answered well, and then the record exists under the returned id; a failure leaves the store as it was or with the record |
| Database.RecordDecodes | metallica/metallica_mis_db.c:193-195 | A packed new-record command decodes to the record meant when every field fits |
| Database.EnsureStorage | metallica/metallica_mis_db.c:307-324 | No user and no flash byte changes; success gives the id of the storage that is there, and all it took was answered well |
| Database.LookupUser | metallica/metallica_mis_db.c:326-349 | 0 names a user with the identity, 1 means there is none, and identities over 256 bytes are refused unsent |
| Database.NewUserRecord | metallica/metallica_mis_db.c:351-357 | The users are as before or have one more at the end, with the identity and no fingers |
| Database.NewFingerRecord | metallica/metallica_mis_db.c:359-366 | Exactly the given user may have one more finger, and has it on success |
| Database.SavePrint | metallica/metallica_mis_enroll.c:645-660 | Lookup-or-create: a user is only created when none has the identity, success means the user with the identity got the finger and every record command and cleanup was answered well, and only a refused finger can be there all the same |
| Database.SaveIsSafe | metallica/metallica_mis_enroll.c:645-660 | However far a save gets there is at most one user per identity and no user or finger is lost |
| EnrollReply.TakeReply | metallica/metallica_mis_enroll.c:379-434 | Accepts exactly the replies whose length word matches and whose body is a row of records with a template and ids that fit; any failure leaves the stored result unchanged |
| EnrollReply.WalkReply | metallica/metallica_mis_enroll.c:387-427 | The walk terminates, decides acceptability exactly, and the last record of each tag wins |
| EnrollReply.OneSplit | metallica/metallica_mis_enroll.c:394-422 | A body splits into records in at most one way |
| EnrollReply.NoSplit | metallica/metallica_mis_enroll.c:394-422 | Where the walk refuses, no split of the whole body exists, or an id does not fit |
| EnrollReply.SplitsAgree | metallica/metallica_mis_enroll.c:394-422 | What the walk has passed is a prefix of every split of the body |
| FingerData.MakeFingerData | metallica/metallica_mis_enroll.c:437-452 | Writes exactly the record, or nothing when it does not fit |
| FingerData.RoundTripsIff | metallica/metallica_mis_enroll.c:437-452 | A record comes apart into subtype, template and id if and only if subtype and info length fit sixteen bits |
| FingerData.AcceptedFitsRecord | metallica/metallica_mis_enroll.c:391-471 | A template and id accepted together give an info section of at most 65487 bytes and a record of at most 65527 that comes apart again, so new_record's own limit cannot refuse it |
| FingerData.TemplateAloneCanOverflow | metallica/metallica_mis_enroll.c:612-612 | An accepted reply without an id whose record would not come apart: the loop must not stop at it |
| FingerData.ParseDict | metallica/metallica_mis_enroll.c:691-702 | Accepts exactly the packings of some entries and fills in the last value of every small tag |
| FingerData.UnpackOfPack | metallica/metallica_mis_enroll.c:691-702 | Unpacking a packed dictionary gives its entries back |
| FingerData.PackOfUnpack | metallica/metallica_mis_enroll.c:691-702 | Whatever unpacks is the packing of what it unpacks to |
| CalibrationMath.Average | metallica/mmis_timeslot.c:574-606 | Refused exactly when the frame does not fit or divide; else every byte is the mean of its column over its group of lines of the second frame |
| CalibrationMath.ProcessResults | metallica/mmis_timeslot.c:608-645 | Refused exactly when the line length is 0 or does not divide, the data does not fit, or the earlier data has another length; else the update of the earlier data by the frame, read from one buffer and written to another |
| CalibrationMath.NothingSaturates | metallica/mmis_timeslot.c:551-572 | Over up to three iterations no clip fires: every sample is the exact sum of the scaled averages and every line keeps the first frame's header |
| CalibrationMath.FourCanSaturate | metallica/mmis_timeslot.c:551-572 | Four iterations can lose samples to the clip |
| Calibrate.DoCalibrate | metallica/metallica_mis_daemon.c:1082-1297 | In every run records and other partitions are unchanged and every mutation bracketed; success means every mutation and cleanup was answered well, partition 6 decodes to the averaged fourth capture and the caller has the data of the first three; a buffer too small is a failure |
| Calibrate.CalibrationIsExact | metallica/metallica_mis_daemon.c:1136-1201 | The data handed back, byte by byte: the header of the first average, or the exact sum of three scaled averages |
| Calibrate.Accumulate | metallica/metallica_mis_daemon.c:1128-1201 | Three iterations over two buffers that are swapped and never the same give the fold of the update over the averaged captures |
| Calibrate.Capture | metallica/metallica_mis_daemon.c:1139-1183 | One capture yields the average of its bulk read, and changes nothing the sensor keeps |
| Calibrate.BuildSlate | metallica/metallica_mis_daemon.c:1245-1269 | The blob built with a moving position in two buffers is the blob of its definition |
| Calibrate.SlateRoundTripsIff | metallica/metallica_mis_daemon.c:1241-1269 | Magic, lengths, digest and zeros read back to the image, whatever follows, if and only if no length was truncated |
| Calibrate.PersistCleanSlate | metallica/mmis_calibrate.c:28-49 | Success leaves partition 6 holding the blob in front, with every mutation and cleanup answered well; nothing else changes, on failure paths too |
| Enroll.Run | metallica/metallica_mis_enroll.c:491-681 | The whole run, against the users it found and the log of what was said: they are kept, or wiped only if the person asked for it, and none wiped on a success is left; success adds exactly one finger, to the one user with HTID's identity, made of the template and id the last update of this run was answered with, comes apart again, and every erase, write and new record and its cleanup was answered well; a failing run adds at most that; a cancelled one changes nothing |
| Enroll.RecordIsMade | metallica/metallica_mis_enroll.c:636-643 | The record of a result in hand is made of the reply the result was taken from, and comes apart into its template and id |
| Enroll.SaveAndReport | metallica/metallica_mis_enroll.c:636-681 | The save and what follows it: the users it found with exactly one more finger on success, or part of that; nothing said after the save changes a record |
| Enroll.CaptureTemplate | metallica/metallica_mis_enroll.c:562-634 | Calibration and touches change no record; success comes with the template and non-empty id of the last update of the run, which was answered with an acceptable image, and with all of the calibration answered well |
| Enroll.EnrollLoop | metallica/metallica_mis_enroll.c:585-626 | The log falls into attempts, each with one light, at most one capture and one end, successful exactly when its two updates were sent and the second was answered with an acceptable image; the loop goes on exactly until one of them completes the enrollment, thirty are used or four in a row failed, and the result is the last reply's |
| Enroll.Touch | metallica/metallica_mis_enroll.c:585-622 | One touch sends some beginning of light, capture, scan query, stop, update start and two updates, and succeeds exactly when it sent them all and the second update took an image, which the result then holds |
| Enroll.AttemptMade | metallica/metallica_mis_enroll.c:585-626 | Whatever a touch sent, with the end behind it the log shows one whole attempt and whether it succeeded |
| Enroll.AppendNewImage | metallica/metallica_mis_enroll.c:360-434 | Success exactly when both updates were sent with the template as it was before and the second was answered with a wholly acceptable image; the result holds that reply's records then, and is unchanged otherwise |
| Enroll.EnrollmentUpdate | metallica/metallica_mis_enroll.c:316-347 | Success exactly when update and cleanup were both answered well, with the update's reply behind its status handed back; the exact messages sent on every path |
| Enroll.CaptureMode | metallica/metallica_mis_enroll.c:179-281 | Nothing is sent when the command cannot be built, else the capture is stopped on every path; the scan is queried only after a good command and a whole row of capture interrupts, and success is exactly a good scan reply |
| Enroll.AwaitCapture | metallica/metallica_mis_enroll.c:206-247 | Success means start, anything up to a finger, then progress up to the first complete interrupt, in this order |
| Enroll.UpdateStart | metallica/metallica_mis_enroll.c:288-305 | Success exactly when the six-byte reply is good and an interrupt follows; the key is then the reply's, and otherwise as before |
| Enroll.Prepare | metallica/metallica_mis_enroll.c:517-560 | Users are removed only when the person asked for it, and after a success none or all are left; cancelling changes nothing |
| Enroll.Save | metallica/metallica_mis_enroll.c:636-660 | The users before with exactly one more finger, made of the result in hand, on success; part of that or nothing on failure; success only if all of it was answered well |
| Enroll.ListUsers | metallica/metallica_mis_db.c:217-249 | Success gives the number of users the sensor holds; nothing changes |
| SwipeCapture.Record | hack_touchid_client.c:380-413 | The capture loop records the swipe of the stream, however the reads cut it up and wherever they end |
| SwipeCapture.ChunkingDoesNotMatter | hack_touchid_client.c:386-412 | Two ways of cutting the same bytes into reads of whole lines record the same lines |
| SwipeCapture.RecorderIsSwipe | hack_touchid_client.c:396-411 | The line-by-line recorder with its three counters computes the swipe as defined in stages, for every stream |
| SwipeCapture.SwipeIsThinSubsequence | hack_touchid_client.c:396-411 | The recorded lines are a subsequence of at most 2000, start with the first line that is not blank, and neighbours differ by at least the threshold |
| SwipeCapture.QuietOnlyAtTheEnd | hack_touchid_client.c:398-402 | The swipe never contains fifty blank lines in a row |
| SwipeCapture.QuietEndsTheSwipe | hack_touchid_client.c:402-402 | If lines are left behind the swipe, the next one is the fiftieth blank line |
| SwipeCapture.GetDeviation | hack_touchid_client.c:275-281 | The mean square distance from the mean, in whole numbers |
| SwipeCapture.GetDiffNorm | hack_touchid_client.c:282-286 | The mean square difference of two lines, in whole numbers |
| MedianFilter.Filter | hack_touchid_client.c:299-312 | Every output is the element of rank w/2 of its clipped window of original inputs, although the result is written in place |
| MedianFilter.RankIsUnique | hack_touchid_client.c:307-308 | At most one value has a given rank |
| MedianFilter.SortedGivesRank | hack_touchid_client.c:307-308 | Place k of the sorted window has rank k in the window |
| MedianFilter.FilterIsDetermined | hack_touchid_client.c:299-312 | The specification allows exactly one result |
| MedianFilter.FilterKeepsBounds | hack_touchid_client.c:299-312 | Any lower and upper bound of the data carries over to the output |
| SwipeAssembly.AssembleLines | hack_touchid_client.c:321-356 | For two lines or more the height is min(max_height, ceil of the whole length) and at least 1; each row below it is interpolated from the pair of lines around it, and the rest is untouched |
| SwipeAssembly.FindOffset | hack_touchid_client.c:326-335 | The first of the best matches among the next thirty lines |
| SwipeAssembly.FindOffsets | hack_touchid_client.c:323-337 | All offsets are best matches, then median-filtered, except the last one |
| SwipeAssembly.OffsetsInRange | hack_touchid_client.c:326-343 | Every offset is between 1 and 30 even after smoothing, so none is skipped |
| SwipeAssembly.OffsetsAreDetermined | hack_touchid_client.c:326-337 | The lines determine the offsets before and after smoothing |
| SwipeAssembly.OneSegment | hack_touchid_client.c:338-350 | Every row lies between exactly one pair of neighbouring lines, so it is written exactly once |
| SwipeAssembly.Blend | hack_touchid_client.c:316-319 | An interpolated pixel lies between its two source pixels |
| SwipeAssembly.InterpolateLines | hack_touchid_client.c:313-320 | One row of the output is the interpolation of its two lines, and no other byte changes |
| SwipeAssembly.CaptureImage | hack_touchid_client.c:386-431 | There is an image exactly when two lines or more were recorded, and it has at least one row, so the empty-image branch is dead |
| NameFile.TableStaysSound | hack_touchid_client.c:3089-3323 | Through every run of the same on any sensor: one entry per slot, names clean and not empty, at most 16 |
| NameFile.TableIsProperIff | hack_touchid_client.c:3089-3323 | Through every run of adding, replacing, renaming and restarting, whatever the sensor lists: the table keeps names that differ even without regard to case, at every moment, if and only if no print is ever added under the name of the one listed as 0; on a sensor that lists none as 0 it always does (`TableStaysProper`) |
| NameFile.ActionKeepsProperIff | hack_touchid_client.c:3089-3323 | One action on a proper table leaves it proper if and only if it is not such an addition; renaming and restarting always do |
| NameFile.FileRestoresIff | hack_touchid_client.c:3143-3173 | Reading the written file back keeps exactly the names of slots 1 to 10, so it restores the table if and only if there is no other slot |
| NameFile.EleventhIsForgotten | hack_touchid_client.c:3475-3494 | A reachable table, one name given to slot 11 from the menu, that a restart empties |
| NameFile.Read | hack_touchid_client.c:3143-3161 | The loop over the file's lines loads what the file says, for any text |
| NameFile.Write | hack_touchid_client.c:3163-3173 | The text written is the table, line by line |
| PrintNames.AddingKeepsApartIff | hack_touchid_client.c:3134-3141 | After adding a print the names are apart if and only if no listed print under slot 0 already has the new name, or the table is full |
| PrintNames.SlotZeroIsOverlooked | hack_touchid_client.c:3136-3136 | A reachable table in which the print under slot 0 and a new print have the same name |
| PrintNames.NamingIsExact | hack_touchid_client.c:3095-3117 | After a naming the slot has the name if and only if it had one before or the table was not full; other slots keep theirs exactly while they are on the sensor |
| NameFile.SeventeenthIsLost | hack_touchid_client.c:3095-3106 | A run of sixteen renamings that fills the table, and a seventeenth whose name is accepted and lost |
| PrintNames.NamingKeepsProper | hack_touchid_client.c:3314-3323 | Pruning and setting a free name keeps the table proper |
| PrintNames.NamingKeepsSound | hack_touchid_client.c:3314-3323 | Pruning and setting a clean name, taken or not, keeps one entry per slot, clean names and the bound of 16 |
| PrintNames.AddingKeepsProperIff | hack_touchid_client.c:3247-3323 | Adding or replacing a print keeps the table proper if and only if the new name is not that of the print listed as 0, or the table is full |
| PrintNames.RenamingKeepsProper | hack_touchid_client.c:3486-3494 | Renaming from the menu keeps the table proper, slots above 10 included |
| PrintNames.PaneRenamingKeepsProper | hack_touchid_client.c:3750-3769 | Renaming from the pane keeps the table proper |
| PrintNames.LowestFreeIsLowest | hack_touchid_client.c:3284-3294 | A new print gets the lowest free slot of 1 to 10, and none only when all are used |
| PrintNames.NameTable.FreeSlot | hack_touchid_client.c:3284-3290 | The search loop finds that slot |
| PrintNames.NameTable.Find | hack_touchid_client.c:3089-3093 | The name of the first entry for the slot, if any |
| PrintNames.NameTable.Set | hack_touchid_client.c:3095-3106 | Overwrites the slot's entry, appends one, or does nothing when the table is full |
| PrintNames.NameTable.Prune | hack_touchid_client.c:3109-3117 | Keeps, in order and in place, exactly the entries of the given slots |
| PrintNames.NameTable.IsTaken | hack_touchid_client.c:3134-3141 | True exactly when a print in the list other than the excepted one has the name |
| PrintNames.NameTable.Ask | hack_touchid_client.c:3209-3225 | The first typed line whose proposal nobody else has |
| PrintNames.NameTable.Add | hack_touchid_client.c:3247-3323 | The table after adding or replacing a print |
| PrintNames.NameTable.Rename | hack_touchid_client.c:3475-3494 | The table after renaming from the menu |
| PrintNames.NameTable.RenameFromPane | hack_touchid_client.c:3750-3769 | The table after renaming from the pane, unchanged when refused |
| NameCleaning.Clean | hack_touchid_client.c:3120-3131 | In place: control characters dropped, blanks trimmed, cut to 31 |
| NameCleaning.CleanedIsSameIff | hack_touchid_client.c:3120-3131 | Cleaning leaves a name alone if and only if it is clean |
| NameCleaning.CleaningIsIdempotent | hack_touchid_client.c:3120-3131 | Cleaning twice is cleaning once |
| AxSearch.FindSecureTextField | metallica/metallica_mis_agent.c:914-952 | Returns exactly the first secure node among the first `budget` nodes of the preorder cut at the depth, or none, and lowers the budget by the nodes visited |
| AxSearch.FindsIsUnique | metallica/metallica_mis_agent.c:914-952 | What a search finds and costs is determined by the tree, the depth and the budget |
| VersionFile.RoundTripsIff | hack_touchid_client.c:1249-1319 | VERSION.txt gives back the record it was written from if and only if every field is short enough, free of line feeds and NULs, and does not end in a carriage return |
| VersionFile.ParseVersionFile | hack_touchid_client.c:1249-1278 | The loop over lines of at most 127 characters computes the parse, for any text |
| VersionFile.ParsedIsInBounds | hack_touchid_client.c:1249-1278 | Whatever is read, no field exceeds its buffer or holds a line feed |
| VersionFile.NewerIsStrictOrder | hack_touchid_client.c:6875-6883 | On all records, malformed ones included, newer is irreflexive, asymmetric and transitive |
| VersionFile.LexicographicIff | hack_touchid_client.c:1206-1239 | Newer is the order by major, minor, patch, year, letter, number on all releases within given bounds, the major within what fits a C int, if and only if these are at most 99 for minor and patch and 9999 for the build number |
| VersionFile.CodesFit | hack_touchid_client.c:1206-1239 | Within those bounds both codes fit a C int |
| VersionFile.MajorIsTight | hack_touchid_client.c:1206-1217 | One major above 214747 has a code that does not fit a C int |
| VersionFile.CodesOfRelease | hack_touchid_client.c:1206-1239 | The codes parsed from a release's printed version, with or without the v, and build |

## Left out

- The lock agent's concurrency is modelled on values, as a step relation over one state, and not with classes: atomics are sequentially consistent, as the C defaults make them. Each load, store and exchange is a step of its own; where the code reads the clock just before a store (the grace times, the deadline of a begin), the two are one step, except in the deadline test of a yield, where they are two.
- That a touch belongs to one particular episode, and that Touch to Lock never arms inside its grace period: the blind stores do not guarantee either.
- AcceptedFitsRecord: is about a template and a non-empty id accepted together, which is what a saved print has; `TemplateAloneCanOverflow` shows what happens without the id.
- WipeUsers: on a sensor that loses answers, how many of a failed deletion's users are gone is only bounded.
- WipeAgain: like the exact count of WipeUsers it is for a reliable sensor whose users fit one reply (n <= 1018).
- WriteThenRead: assumes a device that returns whole chunks; `ReadIsExactIff` says why.
- LexicographicIff: is about majors up to 214747; what a C int makes of a larger one is not modelled, and `MajorIsTight` shows that the bound is the last.
- AssembleLines: computes with real numbers where the code uses `float`, so single-precision rounding is not modelled.
- qsort is taken to leave the buffer sorted, as the C library promises, and is not modelled as an algorithm.
- USB transfers, device open and claim, TLS, key derivation, IOKit, Accessibility and CoreFoundation are foreign: their answers are parameters or left open. A bulk read or an interrupt is an element of a row given to the run; when the row ends, waits time out.
- The factory-bits parser, the capture program's geometry, the chunks of a capture command and SHA-256 stay uninterpreted (`Calibrate.Kernels`); the fixed header of the command is modelled.
- get_user's reply and list_subtypes: their commands are sent, but the lists only go to the person, so they are not parsed.
- match_finger and the identify session are a nondeterministic answer of the lock agent's sensor; `ParseDict` and `CaptureMode` are modelled on their own.
- Out-of-memory exits, the one inside write_flash that skips the cleanup included.
- Integer overflow of numbers in scanned text, and of the sums in the swipe, whose inputs are too small for it.
- Static buffers of the enrollment are bounded sequences, and the enrollment result an object; that static buffers keep their contents between runs is not captured.
- The accumulation buffers of a calibration are allocated for the run; the static ones start with no data used either.
- Writing the names file and VERSION.txt can fail; the model covers the text, not the file system. Mounting the volume, locale and Unicode are not modelled: a char is a byte, and case folding is ASCII.
- Menus, banners, diagnostics, downloads, scripts, pane and menu bar installation, firmware, the Fpbootd plugin with its stubs: input and output, or short code that would add only easy claims.
