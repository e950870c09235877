/** What holds in every state of every run of the speak queue. */
module SpeakQueueSafety {
  import opened SpeakQueue
  import opened SpeakQueueInvariant

  /** `run` is a run: the states, one more than the steps between them. */
  ghost predicate IsRun(maxsize: nat, run: seq<State>, steps: seq<Step>) {
    && |run| == |steps| + 1
    && run[0] == Init()
    && forall i | 0 <= i < |steps| :: Enabled(run[i], steps[i]) && run[i + 1] == Do(maxsize, run[i], steps[i])
  }

  lemma {:induction false} RunKeeps(maxsize: nat, run: seq<State>, steps: seq<Step>, i: nat)
    requires IsRun(maxsize, run, steps) && i < |run|
    ensures Inv(maxsize, run[i])
  {
    if i == 0 {
      InitKeeps(maxsize);
    } else {
      RunKeeps(maxsize, run, steps, i - 1);
      StepKeeps(maxsize, run[i - 1], steps[i - 1]);
    }
  }

  lemma ParkedStays(maxsize: nat, s: State, step: Step)
    requires Enabled(s, step) && AtRest(s.c.play) && s.c.phase.Idle?
    ensures AtRest(Do(maxsize, s, step).c.play)
  {
    match step
    case PlayWake => if s.c.closeReq {} else {}
    case BeforeSynthCall => if s.c.phase.Idle? {} else {}
    case _ =>
  }

  /** From the moment the stop thread has seen the play thread asleep until its report, the play thread is at
      its outer wait (or gone, after terminate) with nothing in hand and the device closed, and whatever anybody
      does next, it stays there. */
  lemma ClearFindsPlayParked(maxsize: nat, run: seq<State>, steps: seq<Step>, i: nat)
    requires IsRun(maxsize, run, steps) && i < |run|
    requires var p := run[i].c.stop; p.Cancelling? || p.Clearing? || p.Resetting? || p.Reporting?
    ensures AtRest(run[i].c.play) && Hand(run[i].c.play) == [] && !run[i].c.configured
    ensures i + 1 < |run| ==> AtRest(run[i + 1].c.play)
  {
    RunKeeps(maxsize, run, steps, i);
    if i + 1 < |run| {
      ParkedStays(maxsize, run[i], steps[i]);
    }
  }

  // ---------------------------------------------------------------- the request flags at the report

  predicate SomeFlag(c: Control) {
    !c.pause.PauseOff? || c.flushReq || c.stopReq
  }

  /** Whether pause, flush or terminate was called after the last reset. */
  predicate CalledSinceReset(steps: seq<Step>, i: nat)
    requires i <= |steps|
  {
    i > 0 && !steps[i - 1].StopReset?
    && (steps[i - 1].PauseCall? || steps[i - 1].FlushCall? || steps[i - 1].TerminateCall?
        || CalledSinceReset(steps, i - 1))
  }

  lemma StopSetsFlags(s: State, step: Step)
    requires Enabled(s, step) && StopStep(step) && DoStop(s, step).c.stop.Reporting?
    ensures step.StopReset? && !SomeFlag(DoStop(s, step).c)
  {
    match step
    case StopLoop => if s.c.closeReq {} else {}
    case StopWake => if s.c.closeReq {} else {}
    case _ =>
  }

  lemma ServerSetsFlags(s: State, step: Step)
    requires Enabled(s, step) && ServerStep(step) && InvControl(s.c) && DoServer(s, step).c.stop.Reporting?
    ensures SomeFlag(DoServer(s, step).c) <==>
            step.PauseCall? || step.FlushCall? || step.TerminateCall? || SomeFlag(s.c)
  {
  }

  lemma PlaySetsFlags(s: State, step: Step)
    requires Enabled(s, step) && PlayStep(step) && InvControl(s.c) && s.c.stop.Reporting?
    ensures SomeFlag(DoPlay(s, step).c) <==> SomeFlag(s.c)
  {
    if s.c.closeReq {} else {}
  }

  lemma DispatchLeavesStop(s: State, e: Entry)
    ensures DispatchEntry(s, e).c.stop == s.c.stop
  {
    match e
    case Begin => if s.c.phase.BeforePlay? {} else {}
    case End => if s.c.phase.Speaking? {} else {}
    case _ =>
  }

  lemma PlayLeavesStop(s: State, step: Step)
    requires Enabled(s, step) && PlayStep(step)
    ensures DoPlay(s, step).c.stop == s.c.stop
  {
    hide SpdMark, DispatchEntry;
    if step.PlayDispatch? {
      DispatchLeavesStop(s, s.c.play.entry);
    }
  }

  lemma StepSetsFlags(maxsize: nat, s: State, step: Step)
    requires Enabled(s, step) && InvControl(s.c) && Do(maxsize, s, step).c.stop.Reporting?
    ensures if step.StopReset? then !SomeFlag(Do(maxsize, s, step).c)
            else s.c.stop.Reporting?
                 && (SomeFlag(Do(maxsize, s, step).c) <==>
                       step.PauseCall? || step.FlushCall? || step.TerminateCall? || SomeFlag(s.c))
  {
    if ServerStep(step) {
      ServerSetsFlags(s, step);
    } else if SynthStep(step) {
    } else if StopStep(step) {
      StopSetsFlags(s, step);
    } else {
      PlayLeavesStop(s, step);
      PlaySetsFlags(s, step);
      hide DoPlay;
    }
  }

  lemma NothingAtReport(maxsize: nat, s: State)
    requires InvControl(s.c) && InvQueue(maxsize, s) && InvAccount(s) && s.c.stop.Reporting?
    ensures s.queue == [] && s.size == 0 && s.c.phase.Idle? && Quiet(s.c.synth)
  {
  }

  lemma FlagsAtStart()
    ensures !Init().c.stop.Reporting?
  {
  }

  lemma CalledStep(steps: seq<Step>, i: nat)
    requires i < |steps|
    ensures CalledSinceReset(steps, i + 1) <==>
            !steps[i].StopReset? && (steps[i].PauseCall? || steps[i].FlushCall? || steps[i].TerminateCall?
                                     || CalledSinceReset(steps, i))
  {
  }

  /** When STOP or PAUSE is about to be reported the queue is empty, its size 0 and the state IDLE. A request flag
      is set exactly if pause, flush or terminate was called after the reset. */
  lemma {:induction false} ReportFindsNothing(maxsize: nat, run: seq<State>, steps: seq<Step>, i: nat)
    requires IsRun(maxsize, run, steps) && i < |run| && run[i].c.stop.Reporting?
    ensures var s := run[i]; s.queue == [] && s.size == 0 && s.c.phase.Idle? && Quiet(s.c.synth)
    ensures SomeFlag(run[i].c) <==> CalledSinceReset(steps, i)
  {
    hide Do, Enabled, InvControl, InvQueue, InvAccount, InvPhase, InvMessage, InvLog, InvPast, SomeFlag, Quiet,
         CalledSinceReset, Init;
    RunKeeps(maxsize, run, steps, i);
    NothingAtReport(maxsize, run[i]);
    FlagsAtStart();
    if i > 0 {
      RunKeeps(maxsize, run, steps, i - 1);
      StepSetsFlags(maxsize, run[i - 1], steps[i - 1]);
      CalledStep(steps, i - 1);
      if !steps[i - 1].StopReset? {
        ReportFindsNothing(maxsize, run, steps, i - 1);
      }
    }
  }

  /** Every message's reports: BEGIN at most once and first, END at most once and followed by nothing but STOP,
      nothing after STOP or PAUSE, PAUSE right after a mark of the server's own.  A message is over, with a
      terminal event, before the next one starts. */
  lemma EveryLogIsGood(maxsize: nat, run: seq<State>, steps: seq<Step>, i: nat)
    requires IsRun(maxsize, run, steps) && i < |run|
    ensures GoodLog(run[i].m.log)
    ensures forall l | l in run[i].past :: GoodLog(l)
    ensures forall k | 0 < k < |run[i].past| :: Complete(run[i].past[k])
  {
    RunKeeps(maxsize, run, steps, i);
    LogIsGood(run[i]);
  }

  /** What is reported of a message is, in push order, the events of a prefix of what was pushed for it, and END
      is reported only when everything pushed has been dispatched. */
  lemma ReportsFollowPushes(maxsize: nat, run: seq<State>, steps: seq<Step>, i: nat)
    requires IsRun(maxsize, run, steps) && i < |run|
    ensures var m := run[i].m; m.reported <= m.pushed && m.log == Events(m.reported) + m.verdict
    ensures var m := run[i].m; EvEnd in m.log ==> m.reported == m.pushed
  {
    RunKeeps(maxsize, run, steps, i);
    var m := run[i].m;
    assert m.reported <= m.reported + m.dropped <= m.pushed;
    if EvEnd in m.log {
      var k :| 0 <= k < |m.log| && m.log[k] == EvEnd;
      assert k < |m.reported| by {
        assert EvEnd !in m.verdict;
      }
      assert m.reported[k] == m.pushed[k] == End;
      assert k == |m.pushed| - 1;
    }
  }

  // ---------------------------------------------------------------- END and STOP for the same message

  /** END's critical section comes while SPEAKING with a stop requested already. */
  predicate LateEnd(s: State, step: Step) {
    step.PlayDispatch? && s.c.play == Dispatching(End) && s.c.phase.Speaking? && s.c.stopReq
  }

  /** Whether there was such a step since the last before_synth. */
  ghost predicate LateEnded(run: seq<State>, steps: seq<Step>, i: nat)
    requires i <= |steps| < |run|
  {
    i > 0 && !steps[i - 1].BeforeSynthCall?
    && (LateEnd(run[i - 1], steps[i - 1]) || LateEnded(run, steps, i - 1))
  }

  predicate EndReached(s: State) {
    s.c.play.ReportingEnd? || Ended(s.m.reported)
  }

  /** After a late END its report is due or done; after any other END nobody stops the message any more. */
  predicate EndSettles(s: State, late: bool) {
    && (late ==> EndReached(s))
    && (!late && EndReached(s) ==>
          s.c.phase.Idle? && s.m.verdict == [] && !StopActive(s.c) && (s.c.stopReq ==> s.c.closeReq))
  }

  /** While an entry other than END is in hand, or a mark just reported, END is not reached. */
  lemma NotYet(s: State)
    requires InvPhase(s.c, s.m) && InvMessage(s.c, s.m)
    requires s.c.play.Dispatching? || s.c.play.ReportingBegin? || s.c.play.MarkCheck?
    ensures !EndReached(s)
  {
  }

  lemma DispatchSettles(s: State, e: Entry)
    requires s.c.play == Dispatching(e)
    requires InvControl(s.c) && InvPhase(s.c, s.m) && InvMessage(s.c, s.m) && InvLog(s)
    ensures EndSettles(DispatchEntry(s, e), LateEnd(s, PlayDispatch))
  {
    hide Events, SpdMark;
    NotYet(s);
    match e
    case Begin => if s.c.phase.BeforePlay? {} else {}
    case End => if s.c.phase.Speaking? { if s.c.stopReq {} else {} }
    case _ =>
  }

  lemma PlaySettles(s: State, step: Step, late: bool)
    requires Enabled(s, step) && PlayStep(step) && !step.PlayDispatch?
    requires InvPhase(s.c, s.m) && InvMessage(s.c, s.m) && EndSettles(s, late)
    ensures EndSettles(DoPlay(s, step), late)
  {
    hide SpdMark;
    match step
    case PlayReportBegin => NotYet(s);
    case PlayMarkCheck => NotYet(s); if s.c.phase.Speaking? {} else {}
    case PlayPop => if s.c.stopReq {} else {}
    case _ =>
  }

  lemma StopSettles(s: State, step: Step, late: bool)
    requires Enabled(s, step) && StopStep(step) && EndSettles(s, late)
    ensures EndSettles(DoStop(s, step), late)
  {
    match step
    case StopLoop => if s.c.closeReq {} else if s.c.stopReq {} else {}
    case StopWake => if s.c.closeReq {} else {}
    case _ =>
  }

  lemma ServerSettles(s: State, step: Step, late: bool)
    requires Enabled(s, step) && ServerStep(step) && !step.BeforeSynthCall? && EndSettles(s, late)
    ensures EndSettles(DoServer(s, step), late)
  {
  }

  lemma SynthSettles(maxsize: nat, s: State, step: Step, late: bool)
    requires Enabled(s, step) && SynthStep(step) && EndSettles(s, late)
    ensures EndSettles(DoSynth(maxsize, s, step), late)
  {
  }

  lemma StepSettles(maxsize: nat, s: State, step: Step, late: bool)
    requires Enabled(s, step) && Inv(maxsize, s) && EndSettles(s, late)
    ensures EndSettles(Do(maxsize, s, step), !step.BeforeSynthCall? && (LateEnd(s, step) || late))
  {
    hide InvQueue;
    if step.BeforeSynthCall? {
      NothingLeft(s);
    } else if ServerStep(step) {
      ServerSettles(s, step, late);
    } else if SynthStep(step) {
      SynthSettles(maxsize, s, step, late);
    } else if StopStep(step) {
      StopSettles(s, step, late);
    } else if step.PlayDispatch? {
      NotYet(s);
      DispatchSettles(s, s.c.play.entry);
    } else {
      PlaySettles(s, step, late);
    }
  }

  lemma {:induction false} RunSettles(maxsize: nat, run: seq<State>, steps: seq<Step>, i: nat)
    requires IsRun(maxsize, run, steps) && i < |run|
    ensures EndSettles(run[i], LateEnded(run, steps, i))
  {
    assert EndSettles(Init(), false);
    hide Inv, EndSettles, LateEnd;
    if i > 0 {
      RunSettles(maxsize, run, steps, i - 1);
      RunKeeps(maxsize, run, steps, i - 1);
      StepSettles(maxsize, run[i - 1], steps[i - 1], LateEnded(run, steps, i - 1));
    }
  }

  lemma EndIsReported(s: State)
    requires InvAccount(s) && InvMessage(s.c, s.m) && InvLog(s)
    ensures EvEnd in s.m.log <==> Ended(s.m.reported)
  {
    var m := s.m;
    if Ended(m.reported) {
      assert m.log[|m.reported| - 1] == EvEnd;
    }
    if EvEnd in m.log {
      var k :| 0 <= k < |m.log| && m.log[k] == EvEnd;
      assert EvEnd !in m.verdict;
      assert k < |m.reported| && m.reported[k] == m.pushed[k] == End;
    }
  }

  /** A message that was stopped or paused has END in front of its verdict exactly if END's critical section came
      late; the verdict is STOP then. */
  lemma EndBeforeVerdict(maxsize: nat, run: seq<State>, steps: seq<Step>, i: nat)
    requires IsRun(maxsize, run, steps) && i < |run|
    ensures var m := run[i].m; m.verdict != [] ==> (EvEnd in m.log <==> LateEnded(run, steps, i))
    ensures var m := run[i].m; EvEnd in m.log && (EvStop in m.log || EvPause in m.log) <==>
                               LateEnded(run, steps, i) && m.verdict == [EvStop]
  {
    RunKeeps(maxsize, run, steps, i);
    RunSettles(maxsize, run, steps, i);
    EndIsReported(run[i]);
    VerdictIsLogged(run[i]);
  }

  lemma VerdictIsLogged(s: State)
    requires InvLog(s)
    ensures EvStop in s.m.log || EvPause in s.m.log <==> s.m.verdict != []
  {
    var m := s.m;
    if m.verdict != [] {
      assert m.log[|m.reported|] == m.verdict[0];
    }
  }

  /** Entries pushed since the last clear are the dispatched ones, then the one in hand, then the queue; the size
      counter is the number of samples queued. */
  lemma NothingLost(maxsize: nat, run: seq<State>, steps: seq<Step>, i: nat)
    requires IsRun(maxsize, run, steps) && i < |run|
    ensures var s := run[i]; s.allPushed == s.allDispatched + Hand(s.c.play) + s.queue
    ensures run[i].size == Sum(run[i].queue)
  {
    RunKeeps(maxsize, run, steps, i);
  }

  lemma {:induction false} SumWithoutAudio(q: seq<Entry>)
    requires forall e | e in q :: !e.Audio?
    ensures Sum(q) == 0
  {
    if q != [] {
      SumWithoutAudio(q[1..]);
    }
  }

  lemma {:induction false} BacklogBound(q: seq<Entry>, maxsize: nat, chunk: nat)
    requires Backlog(q, maxsize)
    requires forall e | e in q :: Samples(e) <= chunk
    ensures Sum(q) <= maxsize + chunk
  {
    if q != [] {
      var n := |q| - 1;
      assert q == q[..n] + [q[n]];
      SumAppend(q[..n], q[n]);
      if !q[n].Audio? {
        BacklogBound(q[..n], maxsize, chunk) by {
          forall i | 0 <= i < n && q[..n][i].Audio? ensures Sum(q[..n][..i]) <= maxsize {
            assert q[..n][..i] == q[..i];
          }
        }
      }
    }
  }

  /** The queued samples are at most the maximum plus one chunk. */
  lemma QueueIsBounded(maxsize: nat, run: seq<State>, steps: seq<Step>, i: nat, chunk: nat)
    requires IsRun(maxsize, run, steps) && i < |run|
    requires forall k | 0 <= k < |steps| && steps[k].AddAudio? :: |steps[k].frames| <= chunk
    ensures run[i].size <= maxsize + chunk
  {
    RunKeeps(maxsize, run, steps, i);
    QueuedChunks(maxsize, run, steps, i, chunk);
    BacklogBound(run[i].queue, maxsize, chunk);
  }

  lemma {:induction false} QueuedChunks(maxsize: nat, run: seq<State>, steps: seq<Step>, i: nat, chunk: nat)
    requires IsRun(maxsize, run, steps) && i < |run|
    requires forall k | 0 <= k < |steps| && steps[k].AddAudio? :: |steps[k].frames| <= chunk
    ensures forall e | e in run[i].queue :: Samples(e) <= chunk
  {
    if i > 0 {
      QueuedChunks(maxsize, run, steps, i - 1, chunk);
    }
  }

  /** Under the usage contract before_synth is never turned down, and it finds nothing of earlier messages. */
  lemma BeforeSynthIsReady(maxsize: nat, run: seq<State>, steps: seq<Step>, i: nat)
    requires IsRun(maxsize, run, steps) && i < |run| && Enabled(run[i], BeforeSynthCall)
    ensures var s := run[i]; s.c.phase.Idle? && s.queue == [] && s.allPushed == s.allDispatched
  {
    RunKeeps(maxsize, run, steps, i);
    NothingLeft(run[i]);
  }

  // ---------------------------------------------------------------- runs worth knowing

  ghost predicate Reachable(maxsize: nat, s: State) {
    exists run, steps :: IsRun(maxsize, run, steps) && run[|run| - 1] == s
  }

  lemma Reach(maxsize: nat, s: State, step: Step, t: State)
    requires Reachable(maxsize, s) && Enabled(s, step) && t == Do(maxsize, s, step)
    ensures Reachable(maxsize, t)
  {
    var run, steps :| IsRun(maxsize, run, steps) && run[|run| - 1] == s;
    assert IsRun(maxsize, run + [t], steps + [step]);
    assert (run + [t])[|run + [t]| - 1] == t;
  }

  const BOTH_WAITING := Init().(c := Control(Idle, PauseOff, false, false, false, true, true, false,
                                            Parked, Waiting, NoSynth))

  const IN_SYNTH := BOTH_WAITING.(c := BOTH_WAITING.c.(phase := BeforeSynth, synth := Started),
                                m := FRESH_MESSAGE.(open := true), past := [[]])

  const IN_PLAY := IN_SYNTH.(c := IN_SYNTH.c.(phase := BeforePlay, synth := Opened), queue := [Begin],
                           m := IN_SYNTH.m.(pushed := [Begin]), allPushed := [Begin])

  /** Both threads wait and the message is nothing but BEGIN and END, queued. */
  const QUEUED := State(Control(BeforePlay, PauseOff, false, false, false, true, true, false,
                                Parked, Waiting, Finished),
                        [Begin, End], 0, FRESH_MESSAGE.(open := true, pushed := [Begin, End]),
                        [Begin, End], [], [[]])

  /** What becomes of a state with BEGIN and another entry queued once BEGIN is reported and the other in hand. */
  function InHand(s: State, e: Entry): State {
    s.(c := s.c.(phase := Speaking, playSleeping := false, play := Dispatching(e)),
       queue := [], allDispatched := [Begin], m := s.m.(reported := [Begin], log := [EvBegin]))
  }

  lemma ThreadsReachTheirWaits(maxsize: nat)
    ensures Reachable(maxsize, BOTH_WAITING)
  {
    var s0 := Init();
    assert IsRun(maxsize, [s0], []) && [s0][|[s0]| - 1] == s0;
    var s1 := s0.(c := s0.c.(stopSleeping := true, stop := Waiting));
    Reach(maxsize, s0, StopLoop, s1);
    Reach(maxsize, s1, PlayOuter, BOTH_WAITING);
  }

  lemma BeginIsPushed(maxsize: nat)
    ensures Reachable(maxsize, IN_PLAY)
  {
    hide Reachable;
    ThreadsReachTheirWaits(maxsize);
    assert BOTH_WAITING.past + [BOTH_WAITING.m.log] == [[]];
    Reach(maxsize, BOTH_WAITING, BeforeSynthCall, IN_SYNTH);
    assert IN_SYNTH.m.pushed + [Begin] == [Begin];
    Reach(maxsize, IN_SYNTH, BeforePlayCall, IN_PLAY);
  }

  lemma QueuedIsReachable(maxsize: nat)
    ensures Reachable(maxsize, QUEUED)
  {
    hide Reachable;
    BeginIsPushed(maxsize);
    assert [Begin] + [End] == [Begin, End];
    Reach(maxsize, IN_PLAY, AddEnd, QUEUED);
  }

  lemma BeginIsDispatched(maxsize: nat, s0: State, e: Entry) returns (s3: State)
    requires Reachable(maxsize, s0) && s0.c.play.Parked? && s0.c.phase.BeforePlay?
    requires !s0.c.stopReq && !s0.c.closeReq && s0.queue == [Begin, e] && s0.size == 0
    ensures Reachable(maxsize, s3)
    ensures s3 == s0.(c := s0.c.(phase := Speaking, playSleeping := false, play := ReportingBegin), queue := [e])
  {
    hide Reachable;
    var s1 := s0.(c := s0.c.(playSleeping := false, play := AtPop));
    Reach(maxsize, s0, PlayWake, s1);
    var s2 := s1.(c := s1.c.(play := Dispatching(Begin)), queue := [e]);
    Reach(maxsize, s1, PlayPop, s2);
    s3 := s2.(c := s2.c.(phase := Speaking, play := ReportingBegin));
    Reach(maxsize, s2, PlayDispatch, s3);
  }

  lemma InHandIsReachable(maxsize: nat, s0: State, e: Entry)
    requires Reachable(maxsize, s0) && s0.c.play.Parked? && s0.c.phase.BeforePlay?
    requires !s0.c.stopReq && !s0.c.closeReq && s0.queue == [Begin, e] && s0.size == 0 && !e.Audio?
    requires s0.m.reported == [] && s0.m.log == [] && s0.allDispatched == []
    ensures Reachable(maxsize, InHand(s0, e))
  {
    hide Reachable;
    var s3 := BeginIsDispatched(maxsize, s0, e);
    var s4 := s3.(c := s3.c.(play := AtPop), allDispatched := [Begin],
                  m := s3.m.(reported := [Begin], log := [EvBegin]));
    Reach(maxsize, s3, PlayReportBegin, s4);
    Reach(maxsize, s4, PlayPop, InHand(s0, e));
  }

  /** A stop that lands between the pop of END and its critical section: END and then STOP are reported. */
  lemma EndThenStop(maxsize: nat)
    ensures exists s :: Reachable(maxsize, s) && s.m.log == [EvBegin, EvEnd, EvStop]
  {
    hide Reachable;
    QueuedIsReachable(maxsize);
    InHandIsReachable(maxsize, QUEUED, End);
    var s0 := InHand(QUEUED, End);
    var s1 := s0.(c := s0.c.(stopReq := true));
    Reach(maxsize, s0, StopCall, s1);
    var s2 := s1.(c := s1.c.(play := ReportingEnd));
    Reach(maxsize, s1, PlayDispatch, s2);
    var s3 := s2.(c := s2.c.(play := AtOuter), allDispatched := [Begin, End],
                  m := s2.m.(reported := [Begin, End], log := [EvBegin, EvEnd], open := false));
    Reach(maxsize, s2, PlayReportEnd, s3);
    var s4 := StopRuns(maxsize, s3);
    var s5 := s4.(c := s4.c.(stop := AtLoop),
                  m := s4.m.(log := s4.m.log + [EvStop], verdict := [EvStop], open := false));
    Reach(maxsize, s4, StopReport, s5);
  }

  /** With the play thread back outside, a requested stop runs up to its report. */
  lemma StopRuns(maxsize: nat, s: State) returns (t: State)
    requires Reachable(maxsize, s) && s.c.stop.Waiting? && s.c.stopReq && !s.c.closeReq && s.c.play.AtOuter?
    ensures Reachable(maxsize, t) && t.c.stop == Reporting(s.c.pause) && t.c.pause.PauseOff? && !t.c.stopReq
    ensures !t.c.closeReq && t.m == s.m.(cleared := true)
  {
    hide Reachable;
    var s1 := s.(c := s.c.(stopSleeping := false, stop := SettingIdle));
    Reach(maxsize, s, StopWake, s1);
    var s2 := s1.(c := s1.c.(phase := Idle, stop := AwaitingPark));
    Reach(maxsize, s1, StopSetIdle, s2);
    var s3 := s2.(c := s2.c.(configured := false, playSleeping := true, play := Parked));
    Reach(maxsize, s2, PlayOuter, s3);
    var s4 := s3.(c := s3.c.(stop := Cancelling));
    Reach(maxsize, s3, StopParkSeen, s4);
    t := ClearRuns(maxsize, s4);
  }

  lemma ClearRuns(maxsize: nat, s4: State) returns (t: State)
    requires Reachable(maxsize, s4) && s4.c.stop.Cancelling?
    ensures Reachable(maxsize, t) && t.c.stop == Reporting(s4.c.pause) && t.c.pause.PauseOff? && !t.c.stopReq
    ensures t.c.closeReq == s4.c.closeReq && t.m == s4.m.(cleared := true)
  {
    hide Reachable;
    var s5 := s4.(c := s4.c.(synth := Finished, stop := Clearing));
    Reach(maxsize, s4, StopCancel, s5);
    var s6 := s5.(c := s5.c.(stop := Resetting), queue := [], size := 0, m := s5.m.(cleared := true),
                  allPushed := [], allDispatched := []);
    Reach(maxsize, s5, StopClear, s6);
    t := s6.(c := s6.c.(phase := Idle, pause := PauseOff, stopReq := false, flushReq := false,
                        stop := Reporting(s6.c.pause)));
    Reach(maxsize, s6, StopReset, t);
  }

  /** A pause call between the reset and the report leaves its request flag set at the STOP report. */
  lemma FlagAtReport(maxsize: nat)
    ensures exists s :: Reachable(maxsize, s) && s.c.stop.Reporting? && s.c.pause.PauseRequested?
  {
    hide Reachable;
    QueuedIsReachable(maxsize);
    var s0 := QUEUED;
    var s1 := s0.(c := s0.c.(playSleeping := false, play := AtPop));
    Reach(maxsize, s0, PlayWake, s1);
    var s2 := s1.(c := s1.c.(stopReq := true));
    Reach(maxsize, s1, StopCall, s2);
    var s3 := s2.(c := s2.c.(play := AtOuter));
    Reach(maxsize, s2, PlayPop, s3);
    var s4 := StopRuns(maxsize, s3);
    var s5 := s4.(c := s4.c.(pause := PauseRequested));
    Reach(maxsize, s4, PauseCall, s5);
  }

  /** BEGIN and a mark are queued, END is not pushed yet. */
  function MarkQueued(id: string): State {
    IN_PLAY.(queue := [Begin, Mark(id)], allPushed := [Begin, Mark(id)],
            m := IN_PLAY.m.(pushed := [Begin, Mark(id)]))
  }

  lemma MarkQueuedIsReachable(maxsize: nat, id: string)
    ensures Reachable(maxsize, MarkQueued(id))
  {
    hide Reachable;
    BeginIsPushed(maxsize);
    assert [Begin] + [Mark(id)] == [Begin, Mark(id)];
    Reach(maxsize, IN_PLAY, AddMark(id), MarkQueued(id));
  }

  /** A pause requested before a mark of the server's own is reported: the mark and then PAUSE are reported. */
  lemma PauseAfterMark(maxsize: nat, id: string)
    requires SpdMark(id)
    ensures exists s :: Reachable(maxsize, s) && s.m.log == [EvBegin, EvMark(id), EvPause]
  {
    hide Reachable;
    MarkQueuedIsReachable(maxsize, id);
    InHandIsReachable(maxsize, MarkQueued(id), Mark(id));
    var s0 := InHand(MarkQueued(id), Mark(id));
    var s1 := s0.(c := s0.c.(pause := PauseRequested));
    Reach(maxsize, s0, PauseCall, s1);
    var s2 := s1.(c := s1.c.(play := MarkCheck(id)), allDispatched := [Begin, Mark(id)],
                  m := s1.m.(reported := [Begin, Mark(id)], log := [EvBegin, EvMark(id)]));
    Reach(maxsize, s1, PlayDispatch, s2);
    var s3 := s2.(c := s2.c.(stopReq := true, pause := PauseMarkReported, play := AtOuter));
    Reach(maxsize, s2, PlayMarkCheck, s3);
    var s4 := StopRuns(maxsize, s3);
    var s5 := s4.(c := s4.c.(stop := AtLoop),
                  m := s4.m.(log := s4.m.log + [EvPause], verdict := s4.m.verdict + [EvPause], open := false));
    Reach(maxsize, s4, StopReport, s5);
  }

  // ---------------------------------------------------------------- what is accepted

  /** The entry a step of the synthesizer gets into the queue. */
  function Accepted(maxsize: nat, s: State, step: Step): seq<Entry> {
    match step
    case BeforePlayCall => if s.c.phase.BeforeSynth? then [Begin] else []
    case AddAudio(frames) =>
      if s.c.phase.Idle? || s.c.stopReq || s.c.flushReq || s.size > maxsize then [] else [Audio(frames)]
    case AddMark(id) => [Mark(id)]
    case AddIcon(file) => [Icon(file)]
    case AddEnd => [End]
    case _ => []
  }

  /** The entries accepted since the last before_synth. */
  ghost function AcceptedSince(maxsize: nat, run: seq<State>, steps: seq<Step>, i: nat): seq<Entry>
    requires i <= |steps| < |run|
  {
    if i == 0 || steps[i - 1].BeforeSynthCall? then []
    else AcceptedSince(maxsize, run, steps, i - 1) + Accepted(maxsize, run[i - 1], steps[i - 1])
  }

  lemma StepPushes(maxsize: nat, s: State, step: Step)
    requires Enabled(s, step) && (step.BeforeSynthCall? ==> s.c.phase.Idle?)
    ensures Do(maxsize, s, step).m.pushed ==
            if step.BeforeSynthCall? then [] else s.m.pushed + Accepted(maxsize, s, step)
  {
    if ServerStep(step) || SynthStep(step) {
      hide Sum;
    } else {
      OthersPushNothing(maxsize, s, step);
      hide Do;
    }
  }

  lemma OthersPushNothing(maxsize: nat, s: State, step: Step)
    requires Enabled(s, step) && !ServerStep(step) && !SynthStep(step)
    ensures Do(maxsize, s, step).m.pushed == s.m.pushed
  {
    hide Sum, SpdMark, DispatchEntry;
    if step.PlayDispatch? {
      DispatchLeavesMessage(s, s.c.play.entry);
    }
  }

  /** What is pushed for a message is, in order, all the synthesizer's calls that were accepted since before_synth:
      marks, icons and END always, audio unless the queue is idle, stopping, flushing or full. */
  lemma {:induction false} PushedIsAccepted(maxsize: nat, run: seq<State>, steps: seq<Step>, i: nat)
    requires IsRun(maxsize, run, steps) && i < |run|
    ensures run[i].m.pushed == AcceptedSince(maxsize, run, steps, i)
  {
    if i > 0 {
      PushedIsAccepted(maxsize, run, steps, i - 1);
      if steps[i - 1].BeforeSynthCall? {
        BeforeSynthIsReady(maxsize, run, steps, i - 1);
      }
      StepPushes(maxsize, run[i - 1], steps[i - 1]);
    }
  }
}
