/** What the speak queue reports and refuses only because somebody asked for it. */
module SpeakQueueCauses {
  import opened SpeakQueue
  import opened SpeakQueueInvariant
  import opened SpeakQueueSafety

  /** The steps since the last before_synth. */
  function Since(steps: seq<Step>, i: nat): seq<Step>
    requires i <= |steps|
  {
    if i == 0 || steps[i - 1].BeforeSynthCall? then [] else Since(steps, i - 1) + [steps[i - 1]]
  }

  /** The calls of the server among some steps. */
  datatype Calls = Calls(stop: bool, pause: bool, flush: bool, terminate: bool)

  predicate Called(steps: seq<Step>, calls: Calls) {
    && (calls.stop <==> StopCall in steps) && (calls.pause <==> PauseCall in steps)
    && (calls.flush <==> FlushCall in steps) && (calls.terminate <==> TerminateCall in steps)
  }

  function CallsIn(steps: seq<Step>): (calls: Calls)
    ensures Called(steps, calls)
  {
    Calls(StopCall in steps, PauseCall in steps, FlushCall in steps, TerminateCall in steps)
  }

  function With(calls: Calls, step: Step): Calls {
    if step.BeforeSynthCall? then Calls(false, false, false, false)
    else Calls(calls.stop || step.StopCall?, calls.pause || step.PauseCall?, calls.flush || step.FlushCall?,
               calls.terminate || step.TerminateCall?)
  }

  lemma OneMoreStep(steps: seq<Step>, i: nat)
    requires i < |steps|
    ensures CallsIn(Since(steps, i + 1)) == With(CallsIn(Since(steps, i)), steps[i])
  {
  }

  // ---------------------------------------------------------------- every flag was asked for

  /** Every flag, and every verdict, goes back to a call. */
  predicate Caused(c: Control, verdict: seq<Event>, calls: Calls) {
    && (!c.pause.PauseOff? ==> calls.pause)
    && (c.flushReq ==> calls.flush)
    && (c.closeReq && c.stopReq ==> calls.terminate || calls.stop || c.pause.PauseMarkReported?)
    && (c.stopReq && !c.closeReq ==> calls.stop || c.pause.PauseMarkReported?)
    && (StopActive(c) ==>
          calls.stop || if c.stop.Reporting? then c.stop.saved.PauseMarkReported? else c.pause.PauseMarkReported?)
    && (c.stop.Reporting? && c.stop.saved.PauseMarkReported? ==> calls.pause)
    && (EvPause in verdict ==> calls.pause) && (EvStop in verdict ==> calls.stop)
  }

  lemma ServerIsCaused(s: State, step: Step, calls: Calls)
    requires Enabled(s, step) && ServerStep(step) && Caused(s.c, s.m.verdict, calls)
    requires step.BeforeSynthCall? ==> s.c.phase.Idle?
    ensures Caused(DoServer(s, step).c, DoServer(s, step).m.verdict, With(calls, step))
  {
  }

  lemma SynthFlags(maxsize: nat, s: State, step: Step)
    requires Enabled(s, step) && SynthStep(step)
    ensures var c, d := s.c, DoSynth(maxsize, s, step).c;
            && d.stopReq == c.stopReq && d.flushReq == c.flushReq && d.closeReq == c.closeReq && d.stop == c.stop
            && d.pause == c.pause
    ensures DoSynth(maxsize, s, step).m.verdict == s.m.verdict
  {
    hide Sum;
    match step
    case BeforePlayCall => if s.c.phase.BeforeSynth? {} else {}
    case AddAudio(_) =>
    case AddMark(_) =>
    case AddIcon(_) =>
    case AddEnd =>
  }

  lemma SynthIsCaused(maxsize: nat, s: State, step: Step, calls: Calls)
    requires Enabled(s, step) && SynthStep(step) && Caused(s.c, s.m.verdict, calls)
    ensures Caused(DoSynth(maxsize, s, step).c, DoSynth(maxsize, s, step).m.verdict, With(calls, step))
  {
    hide DoSynth, Enabled;
    SynthFlags(maxsize, s, step);
  }

  lemma MarkIsCaused(s: State, id: string, calls: Calls)
    requires Caused(s.c, s.m.verdict, calls)
    ensures Caused(MarkSection(s.c, id), s.m.verdict, calls)
  {
    hide SpdMark;
  }

  /** What the play thread can do to the flags by dispatching: end a requested pause, when no stop is requested. */
  lemma DispatchFlags(s: State, e: Entry)
    requires s.c.play == Dispatching(e)
    ensures var c, d := s.c, DispatchEntry(s, e).c;
            && d.stopReq == c.stopReq && d.flushReq == c.flushReq && d.closeReq == c.closeReq && d.stop == c.stop
            && (d.pause == c.pause || (d.pause.PauseOff? && !c.stopReq))
    ensures DispatchEntry(s, e).m.verdict == s.m.verdict
  {
    match e
    case Begin => if s.c.phase.BeforePlay? {} else {}
    case End => if s.c.phase.Speaking? { if s.c.stopReq {} else {} }
    case _ =>
  }

  lemma DispatchIsCaused(s: State, e: Entry, calls: Calls)
    requires s.c.play == Dispatching(e) && InvControl(s.c) && Caused(s.c, s.m.verdict, calls)
    ensures Caused(DispatchEntry(s, e).c, DispatchEntry(s, e).m.verdict, calls)
  {
    hide DispatchEntry;
    DispatchFlags(s, e);
  }

  lemma QuietPlayFlags(s: State, step: Step)
    requires Enabled(s, step) && PlayStep(step) && !step.PlayDispatch? && !step.PlayMarkCheck?
    ensures var c, d := s.c, DoPlay(s, step).c;
            && d.stopReq == c.stopReq && d.flushReq == c.flushReq && d.closeReq == c.closeReq && d.stop == c.stop
            && d.pause == c.pause
    ensures DoPlay(s, step).m.verdict == s.m.verdict
  {
    hide DispatchEntry, MarkSection, SpdMark, Sum;
    match step
    case PlayPop => if s.c.stopReq {} else {}
    case PlayOuter =>
    case PlayWake =>
    case PlayReportBegin =>
    case PlayReportEnd =>
  }

  lemma PlayIsCaused(s: State, step: Step, calls: Calls)
    requires Enabled(s, step) && PlayStep(step) && InvControl(s.c) && Caused(s.c, s.m.verdict, calls)
    ensures Caused(DoPlay(s, step).c, DoPlay(s, step).m.verdict, With(calls, step))
  {
    hide SpdMark, DispatchEntry, MarkSection, InvControl;
    match step
    case PlayDispatch => DispatchIsCaused(s, s.c.play.entry, calls);
    case PlayMarkCheck => MarkIsCaused(s, s.c.play.id, calls);
    case _ => QuietPlayFlags(s, step);
  }

  lemma ReportIsCaused(s: State, calls: Calls)
    requires s.c.stop.Reporting? && Caused(s.c, s.m.verdict, calls)
    ensures Caused(DoStop(s, StopReport).c, DoStop(s, StopReport).m.verdict, calls)
  {
    if s.c.stop.saved.PauseMarkReported? {} else {}
  }

  lemma StopIsCaused(s: State, step: Step, calls: Calls)
    requires Enabled(s, step) && StopStep(step) && InvControl(s.c) && Caused(s.c, s.m.verdict, calls)
    ensures Caused(DoStop(s, step).c, DoStop(s, step).m.verdict, With(calls, step))
  {
    match step
    case StopLoop => if s.c.closeReq {} else if s.c.stopReq {} else {}
    case StopWake => if s.c.closeReq {} else {}
    case StopReport => ReportIsCaused(s, calls);
    case _ =>
  }

  lemma StepIsCaused(maxsize: nat, s: State, step: Step, calls: Calls)
    requires Enabled(s, step) && Inv(maxsize, s) && Caused(s.c, s.m.verdict, calls)
    ensures Caused(Do(maxsize, s, step).c, Do(maxsize, s, step).m.verdict, With(calls, step))
  {
    if step.BeforeSynthCall? {
      NothingLeft(s);
    }
    hide InvQueue, InvPhase, InvMessage, InvLog, InvAccount, InvPast;
    if ServerStep(step) {
      ServerIsCaused(s, step, calls);
    } else if SynthStep(step) {
      SynthIsCaused(maxsize, s, step, calls);
    } else if StopStep(step) {
      StopIsCaused(s, step, calls);
    } else {
      PlayIsCaused(s, step, calls);
    }
  }

  lemma {:induction false} RunIsCaused(maxsize: nat, run: seq<State>, steps: seq<Step>, i: nat)
    requires IsRun(maxsize, run, steps) && i < |run|
    ensures Caused(run[i].c, run[i].m.verdict, CallsIn(Since(steps, i)))
  {
    assert Caused(Init().c, [], CallsIn([]));
    hide Caused, Inv, CallsIn, With;
    if i > 0 {
      RunIsCaused(maxsize, run, steps, i - 1);
      RunKeeps(maxsize, run, steps, i - 1);
      OneMoreStep(steps, i - 1);
      StepIsCaused(maxsize, run[i - 1], steps[i - 1], CallsIn(Since(steps, i - 1)));
    }
  }

  lemma VerdictOnly(s: State)
    requires InvLog(s)
    ensures EvPause in s.m.log <==> EvPause in s.m.verdict
    ensures EvStop in s.m.log <==> EvStop in s.m.verdict
    ensures EvPause in s.m.log ==>
              var l := s.m.log; |l| > 1 && l[|l| - 1] == EvPause && l[|l| - 2].EvMark? && "__spd_" <= l[|l| - 2].id
  {
  }

  /** PAUSE is reported only after pause was called for the message, and behind a mark of the server's own; STOP only
      after stop was called for it. */
  lemma VerdictIsAsked(maxsize: nat, run: seq<State>, steps: seq<Step>, i: nat)
    requires IsRun(maxsize, run, steps) && i < |run|
    ensures EvPause in run[i].m.log ==>
              && PauseCall in Since(steps, i)
              && var l := run[i].m.log; |l| > 1 && l[|l| - 2].EvMark? && "__spd_" <= l[|l| - 2].id
    ensures EvStop in run[i].m.log ==> StopCall in Since(steps, i)
  {
    RunKeeps(maxsize, run, steps, i);
    RunIsCaused(maxsize, run, steps, i);
    VerdictOnly(run[i]);
  }

  lemma MarkNeedsWaiter(c: Control, id: string)
    requires InvControl(c) && !c.stopReq && MarkSection(c, id).stopReq
    ensures c.stop.Waiting? && c.phase.Speaking? && c.pause.PauseRequested?
  {
    hide SpdMark;
  }

  lemma ServerStops(s: State, step: Step)
    requires Enabled(s, step) && ServerStep(step) && InvControl(s.c) && !s.c.stopReq && DoServer(s, step).c.stopReq
    ensures step.TerminateCall? || (step.StopCall? && s.c.stop.Waiting? && !s.c.phase.Idle?)
  {
  }

  lemma StopStopsNothing(s: State, step: Step)
    requires Enabled(s, step) && StopStep(step) && !s.c.stopReq
    ensures !DoStop(s, step).c.stopReq
  {
  }

  lemma NewStop(maxsize: nat, s: State, step: Step)
    requires Enabled(s, step) && InvControl(s.c) && !s.c.stopReq && Do(maxsize, s, step).c.stopReq
    ensures step.TerminateCall? || (s.c.stop.Waiting? && !s.c.phase.Idle?)
    ensures step.TerminateCall? || step.StopCall?
            || (step.PlayMarkCheck? && s.c.phase.Speaking? && s.c.pause.PauseRequested?)
  {
    if ServerStep(step) {
      ServerStops(s, step);
    } else if SynthStep(step) {
      SynthFlags(maxsize, s, step);
    } else if StopStep(step) {
      StopStopsNothing(s, step);
    } else {
      PlayStops(s, step);
    }
    hide DoServer, DoSynth, DoStop, DoPlay, Enabled, InvControl;
  }

  lemma PlayStops(s: State, step: Step)
    requires Enabled(s, step) && PlayStep(step) && InvControl(s.c) && !s.c.stopReq && DoPlay(s, step).c.stopReq
    ensures step.PlayMarkCheck? && s.c.stop.Waiting? && s.c.phase.Speaking? && s.c.pause.PauseRequested?
  {
    hide DispatchEntry, MarkSection, InvControl;
    match step
    case PlayDispatch => DispatchFlags(s, s.c.play.entry);
    case PlayMarkCheck => MarkNeedsWaiter(s.c, s.c.play.id);
    case _ => QuietPlayFlags(s, step);
  }

  /** Only terminate interrupts a stop thread that does not wait: stop and a mark that pauses take effect while a
      message is on its way and the stop thread waits, the mark only if a pause was called. */
  lemma StopFindsWaiter(maxsize: nat, run: seq<State>, steps: seq<Step>, i: nat)
    requires IsRun(maxsize, run, steps) && i < |steps| && !run[i].c.stopReq && run[i + 1].c.stopReq
    ensures steps[i].TerminateCall? || (run[i].c.stop.Waiting? && !run[i].c.phase.Idle?)
    ensures steps[i].TerminateCall? || steps[i].StopCall?
            || (steps[i].PlayMarkCheck? && run[i].c.phase.Speaking? && PauseCall in Since(steps, i))
  {
    RunKeeps(maxsize, run, steps, i);
    RunIsCaused(maxsize, run, steps, i);
    NewStop(maxsize, run[i], steps[i]);
    hide Since, Do, Enabled, InvControl, InvPhase, InvMessage, InvLog, InvAccount, InvPast, InvQueue;
  }

  // ---------------------------------------------------------------- refused audio

  /** The frames waiting in a queue, in order. */
  function FramesOf(q: seq<Entry>): seq<int> {
    if q == [] then [] else (if q[0].Audio? then q[0].frames else []) + FramesOf(q[1..])
  }

  lemma {:induction false} SumIsFrames(q: seq<Entry>)
    ensures Sum(q) == |FramesOf(q)|
  {
    if q != [] {
      SumIsFrames(q[1..]);
    }
  }

  /** The size counter is the number of frames waiting. */
  lemma SizeIsFrames(maxsize: nat, run: seq<State>, steps: seq<Step>, i: nat)
    requires IsRun(maxsize, run, steps) && i < |run|
    ensures run[i].size == |FramesOf(run[i].queue)|
  {
    RunKeeps(maxsize, run, steps, i);
    SumIsFrames(run[i].queue);
  }

  lemma WhyRefused(maxsize: nat, s: State, frames: seq<int>)
    requires Enabled(s, AddAudio(frames)) && InvPhase(s.c, s.m)
    requires Do(maxsize, s, AddAudio(frames)).m.pushed == s.m.pushed
    ensures StopInProgress(s.c) || s.c.flushReq || s.size > maxsize
  {
  }

  /** Audio is refused only if stop, pause, flush or terminate was called for the message, or more frames than the
      maximum are waiting. */
  lemma AudioIsRefusedFor(maxsize: nat, run: seq<State>, steps: seq<Step>, i: nat)
    requires IsRun(maxsize, run, steps) && i < |steps| && steps[i].AddAudio? && run[i + 1].m.pushed == run[i].m.pushed
    ensures var calls := Since(steps, i);
            || StopCall in calls || PauseCall in calls || FlushCall in calls || TerminateCall in calls
            || |FramesOf(run[i].queue)| > maxsize
  {
    RunKeeps(maxsize, run, steps, i);
    RunIsCaused(maxsize, run, steps, i);
    SizeIsFrames(maxsize, run, steps, i);
    WhyRefused(maxsize, run[i], steps[i].frames);
    hide Since, FramesOf, Do, Sum;
  }

  // ---------------------------------------------------------------- silence after a stop

  /** Stopped, or at rest after a stop: nothing is popped any more. */
  predicate Quieted(c: Control) {
    c.stopReq || (c.phase.Idle? && AtRest(c.play))
  }

  /** What was reported, with what is in hand, is within `base`. */
  predicate Silent(s: State, base: seq<Entry>) {
    Quieted(s.c) && s.m.reported + Hand(s.c.play) <= base
  }

  lemma DispatchStaysSilent(s: State, e: Entry, base: seq<Entry>)
    requires s.c.play == Dispatching(e) && InvControl(s.c) && Silent(s, base)
    ensures Silent(DispatchEntry(s, e), base)
  {
    match e
    case Begin => if s.c.phase.BeforePlay? {} else {}
    case End => if s.c.phase.Speaking? { if s.c.stopReq {} else {} }
    case _ =>
  }

  lemma PlayStaysSilent(s: State, step: Step, base: seq<Entry>)
    requires Enabled(s, step) && PlayStep(step) && InvControl(s.c) && Silent(s, base)
    ensures Silent(DoPlay(s, step), base)
  {
    hide SpdMark, DispatchEntry;
    match step
    case PlayDispatch => DispatchStaysSilent(s, s.c.play.entry, base);
    case PlayOuter => if s.c.closeReq {} else if s.c.phase.Idle? {} else {}
    case PlayWake => if s.c.closeReq {} else if s.c.phase.Idle? {} else {}
    case PlayPop => if s.c.stopReq {} else {}
    case _ =>
  }

  lemma StopStaysSilent(s: State, step: Step, base: seq<Entry>)
    requires Enabled(s, step) && StopStep(step) && InvControl(s.c) && Silent(s, base)
    ensures Silent(DoStop(s, step), base)
  {
    match step
    case StopLoop => if s.c.closeReq {} else if s.c.stopReq {} else {}
    case StopWake => if s.c.closeReq {} else {}
    case _ =>
  }

  lemma OthersStaySilent(maxsize: nat, s: State, step: Step, base: seq<Entry>)
    requires Enabled(s, step) && (ServerStep(step) || SynthStep(step)) && !step.BeforeSynthCall?
    requires InvControl(s.c) && Silent(s, base)
    ensures Silent(Do(maxsize, s, step), base)
  {
    hide Hand;
  }

  /** Once a stop is requested, nothing more of the message is reported than the entry in hand, until the next
      before_synth. */
  lemma {:induction false} StopSilences(maxsize: nat, run: seq<State>, steps: seq<Step>, i: nat, j: nat)
    requires IsRun(maxsize, run, steps) && i <= j < |run| && run[i].c.stopReq
    requires forall k | i <= k < j :: !steps[k].BeforeSynthCall?
    ensures Silent(run[j], run[i].m.reported + Hand(run[i].c.play))
    ensures run[j].m.reported <= run[i].m.reported + Hand(run[i].c.play)
  {
    hide DoStop, DoPlay, DoServer, DoSynth, InvQueue, InvPhase, InvMessage, InvLog, InvAccount, InvPast, Hand, Enabled;
    var base := run[i].m.reported + Hand(run[i].c.play);
    if i < j {
      StopSilences(maxsize, run, steps, i, j - 1);
      RunKeeps(maxsize, run, steps, j - 1);
      var s, step := run[j - 1], steps[j - 1];
      if ServerStep(step) || SynthStep(step) {
        OthersStaySilent(maxsize, s, step, base);
      } else if StopStep(step) {
        StopStaysSilent(s, step, base);
      } else {
        PlayStaysSilent(s, step, base);
      }
    }
    SilentPrefix(run[j], base);
  }

  lemma SilentPrefix(s: State, base: seq<Entry>)
    requires Silent(s, base)
    ensures s.m.reported <= base
  {
    assert s.m.reported <= s.m.reported + Hand(s.c.play);
  }
}
