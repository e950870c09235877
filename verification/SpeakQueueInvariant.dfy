/** The invariant of the speak queue and the proof that every step keeps it. */
module SpeakQueueInvariant {
  import opened SpeakQueue

  // ---------------------------------------------------------------- vocabulary

  /** The entry the play thread has popped and not yet dispatched. */
  function Hand(p: PlayPc): seq<Entry> {
    match p
    case Dispatching(e) => [e]
    case ReportingBegin => [Begin]
    case ReportingEnd => [End]
    case _ => []
  }

  function Ev(e: Entry): Event {
    match e
    case Audio(frames) => EvAudio(frames)
    case Mark(id) => EvMark(id)
    case Icon(file) => EvIcon(file)
    case Begin => EvBegin
    case End => EvEnd
  }

  function Events(es: seq<Entry>): (evs: seq<Event>)
    ensures |evs| == |es|
  {
    seq(|es|, i requires 0 <= i < |es| => Ev(es[i]))
  }

  predicate Terminal(e: Event) {
    e.EvEnd? || e.EvStop? || e.EvPause?
  }

  predicate AtRest(p: PlayPc) {
    p.Parked? || p.PlayExited?
  }

  /** Outside the inner loop. */
  predicate Outside(p: PlayPc) {
    p.AtOuter? || AtRest(p)
  }

  predicate Quiet(y: Synth) {
    y.NoSynth? || y.Finished?
  }

  predicate Begun(es: seq<Entry>) {
    es != [] && es[0] == Begin
  }

  predicate Ended(es: seq<Entry>) {
    es != [] && es[|es| - 1] == End
  }

  predicate LastIsSpdMark(es: seq<Entry>) {
    es != [] && es[|es| - 1].Mark? && SpdMark(es[|es| - 1].id)
  }

  /** All queued audio but the last chunk fits. */
  predicate Backlog(q: seq<Entry>, maxsize: nat) {
    forall i | 0 <= i < |q| && q[i].Audio? :: Sum(q[..i]) <= maxsize
  }

  // ---------------------------------------------------------------- the invariant

  /** The flags and program counters among themselves. */
  predicate InvControl(c: Control) {
    && (c.playSleeping <==> AtRest(c.play))
    && (c.stopSleeping <==> c.stop.Waiting?)
    && (AtRest(c.play) ==> !c.configured)
    && (c.play.PlayExited? || c.stop.StopExited? ==> c.closeReq)
    && ((c.stop.AtLoop? || c.stop.Reporting?) && c.stopReq ==> c.closeReq)
    && (StopActive(c) && !c.stop.Reporting? ==> c.stopReq)
    && (StopActive(c) && !c.stop.SettingIdle? ==> c.phase.Idle?)
    && (c.stop.Cancelling? || c.stop.Clearing? || c.stop.Resetting? || c.stop.Reporting? ==> AtRest(c.play))
    && (c.stop.Clearing? || c.stop.Resetting? || c.stop.Reporting? ==> Quiet(c.synth))
    && (c.pause.PauseMarkReported? ==> c.stopReq)
    && (c.phase.BeforeSynth? ==> c.synth.Started?)
  }

  /** The size counter, and the entries pushed since the last clear: dispatched, then in hand, then queued. */
  predicate InvQueue(maxsize: nat, s: State) {
    && s.size == Sum(s.queue)
    && Backlog(s.queue, maxsize)
    && s.allPushed == s.allDispatched + Hand(s.c.play) + s.queue
  }

  /** The same account for the current message, where a clear loses what was not dispatched. */
  predicate InvAccount(s: State) {
    if s.m.cleared then
      && s.queue == [] && s.m.reported + s.m.dropped <= s.m.pushed
      && AtRest(s.c.play) && s.c.phase.Idle? && Quiet(s.c.synth)
    else
      && s.m.pushed == s.m.reported + s.m.dropped + Hand(s.c.play) + s.queue
      && !s.c.stop.Resetting? && !s.c.stop.Reporting?
  }

  /** How the control state and the message's progress hang together. */
  predicate InvPhase(c: Control, m: Message) {
    && (c.phase.BeforeSynth? ==> m.open && m.pushed == [])
    && (c.phase.BeforePlay? ==>
          && m.open && m.reported == [] && m.dropped == [] && Begun(m.pushed)
          && (Outside(c.play) || c.play.AtPop? || c.play.Dispatching?))
    && (c.phase.Speaking? ==>
          && Begun(m.pushed) && m.dropped == [] && (c.play.ReportingBegin? <==> m.reported == [])
          && (m.open || (c.stopReq && Ended(m.reported))))
    && (c.play.ReportingBegin? ==> m.reported == [] && m.dropped == [] && m.open)
    && (c.play.ReportingEnd? ==>
          && m.open && m.reported != [] && m.dropped == [] && !c.phase.BeforeSynth? && !c.phase.BeforePlay?
          && (c.phase.Speaking? ==> c.stopReq))
    && (c.play.MarkCheck? ==>
          m.dropped == [] && m.reported != [] && m.reported[|m.reported| - 1] == Mark(c.play.id))
    && (c.play.Dispatching? ==> m.open && m.dropped == [])
    && (c.phase.Idle? && m.open ==> (StopActive(c) && !c.stop.SettingIdle?) || c.play.ReportingEnd?)
    && (!m.open && !StopInProgress(c) ==> c.phase.Idle? && Outside(c.play) && Quiet(c.synth))
    && (!Quiet(c.synth) ==> m.open && (c.phase.Idle? ==> c.stop.AwaitingPark? || c.stop.Cancelling?))
    && (m.dropped != [] ==>
          && (m.dropped == [Begin] || m.dropped == [End])
          && c.phase.Idle? && (c.stopReq || m.cleared) && (Outside(c.play) || c.play.AtPop?))
    && (!Begun(m.pushed) ==>
          Outside(c.play) && m.reported == [] && m.dropped == [] && (m.pushed != [] ==> c.phase.Idle?))
  }

  /** BEGIN is pushed first or never, END last. */
  predicate InvMessage(c: Control, m: Message) {
    && (forall i | 0 < i < |m.pushed| :: m.pushed[i] != Begin)
    && (forall i | 0 <= i < |m.pushed| - 1 :: m.pushed[i] != End)
    && (Ended(m.pushed) ==> Quiet(c.synth))
    && (m.open ==> !Ended(m.reported))
  }

  /** The log is the events of the reported entries, in push order, then at most one STOP or PAUSE. */
  predicate InvLog(s: State) {
    var c, m := s.c, s.m;
    && m.log == Events(m.reported) + m.verdict
    && (m.open || StopActive(c) || (c.stopReq && !c.closeReq) ==> m.verdict == [])
    && (m.verdict != [] ==>
          m.cleared && (m.verdict == [EvStop] || (m.verdict == [EvPause] && LastIsSpdMark(m.reported))))
    && (c.pause.PauseMarkReported? || (c.stop.Reporting? && c.stop.saved.PauseMarkReported?) ==>
          LastIsSpdMark(m.reported) && m.dropped == [] && (Outside(c.play) || c.play.AtPop?))
    && (!m.open && s.past != [] ==> Ended(m.reported) || m.verdict != [])
    && (s.past == [] ==> m == FRESH_MESSAGE && !StopActive(c) && (c.stopReq ==> c.closeReq))
  }

  /** What a single message may report. */
  predicate GoodLog(l: seq<Event>) {
    // BEGIN only first, and everything that plays or ends comes after it
    && (forall i | 0 <= i < |l| && l[i].EvBegin? :: i == 0)
    && (l != [] && !l[0].EvBegin? ==> l == [EvStop])
    // END at most once, and then only STOP can follow
    && (forall i, j | 0 <= i < j < |l| && l[i].EvEnd? :: l[j].EvStop?)
    // nothing follows STOP or PAUSE
    && (forall i | 0 <= i < |l| - 1 :: !l[i].EvStop? && !l[i].EvPause?)
    // PAUSE comes right after a mark of the server's own
    && (forall i | 0 <= i < |l| && l[i].EvPause? :: 0 < i && l[i - 1].EvMark? && SpdMark(l[i - 1].id))
  }

  predicate Complete(l: seq<Event>) {
    l != [] && Terminal(l[|l| - 1])
  }

  predicate InvPast(past: seq<seq<Event>>) {
    && (forall l | l in past :: GoodLog(l))
    && (forall i | 0 < i < |past| :: Complete(past[i]))
  }

  predicate Inv(maxsize: nat, s: State) {
    && InvControl(s.c) && InvQueue(maxsize, s) && InvAccount(s) && InvPhase(s.c, s.m) && InvMessage(s.c, s.m)
    && InvLog(s) && InvPast(s.past)
  }

  // ---------------------------------------------------------------- small facts

  lemma {:induction false} SumAppend(q: seq<Entry>, e: Entry)
    ensures Sum(q + [e]) == Sum(q) + Samples(e)
  {
    if q == [] {
      assert q + [e] == [e];
    } else {
      assert (q + [e])[1..] == q[1..] + [e];
      SumAppend(q[1..], e);
    }
  }

  lemma BacklogPush(q: seq<Entry>, e: Entry, maxsize: nat)
    requires Backlog(q, maxsize)
    requires e.Audio? ==> Sum(q) <= maxsize
    ensures Backlog(q + [e], maxsize)
  {
    forall i | 0 <= i < |q + [e]| && (q + [e])[i].Audio?
      ensures Sum((q + [e])[..i]) <= maxsize
    {
      assert (q + [e])[..i] == q[..i];
      if i == |q| {
        assert q[..i] == q;
      }
    }
  }

  lemma BacklogPop(q: seq<Entry>, maxsize: nat)
    requires q != [] && Backlog(q, maxsize)
    ensures Backlog(q[1..], maxsize)
  {
    forall i | 0 <= i < |q| - 1 && q[1..][i].Audio?
      ensures Sum(q[1..][..i]) <= maxsize
    {
      assert q[..i + 1][1..] == q[1..][..i];
    }
  }

  /** Until the queue is cleared under it, the entry in hand is the next one pushed. */
  lemma HandIsNext(s: State)
    requires InvAccount(s) && InvPhase(s.c, s.m) && !s.m.cleared && Hand(s.c.play) != []
    ensures var k := |s.m.reported|; k < |s.m.pushed| && s.m.pushed[k] == Hand(s.c.play)[0] && s.m.dropped == []
    ensures |s.m.pushed| == |s.m.reported| + 1 + |s.queue|
  {
  }

  // ---------------------------------------------------------------- every step keeps the invariant

  lemma InitKeeps(maxsize: nat)
    ensures Inv(maxsize, Init())
  {
  }

  // Control: the flags need nothing but themselves.

  lemma CallKeepsControl(s: State, step: Step)
    requires Enabled(s, step) && ServerStep(step) && InvControl(s.c)
    ensures InvControl(DoServer(s, step).c)
  {
  }

  lemma ServerKeepsControl(maxsize: nat, s: State, step: Step)
    requires Enabled(s, step) && (ServerStep(step) || SynthStep(step)) && InvControl(s.c)
    ensures InvControl(Do(maxsize, s, step).c)
  {
    if ServerStep(step) {
      CallKeepsControl(s, step);
      hide DoServer, InvControl;
    }
  }

  lemma BeginKeepsControl(s: State)
    requires s.c.play == Dispatching(Begin) && InvControl(s.c)
    ensures InvControl(DispatchEntry(s, Begin).c)
  {
    if s.c.phase.BeforePlay? {} else {}
  }

  lemma EndKeepsControl(s: State)
    requires s.c.play == Dispatching(End) && InvControl(s.c)
    ensures InvControl(DispatchEntry(s, End).c)
  {
    if s.c.phase.Speaking? {
      if s.c.stopReq {} else {}
    }
  }

  lemma DispatchKeepsControl(s: State, e: Entry)
    requires s.c.play == Dispatching(e) && InvControl(s.c)
    ensures InvControl(DispatchEntry(s, e).c)
  {
    match e
    case Begin => BeginKeepsControl(s);
    case End => EndKeepsControl(s);
    case Audio(_) =>
    case Icon(_) =>
    case Mark(_) =>
  }

  lemma PlayKeepsControl(s: State, step: Step)
    requires Enabled(s, step) && PlayStep(step) && !step.PlayDispatch? && InvControl(s.c)
    ensures InvControl(DoPlay(s, step).c)
  {
    hide SpdMark;
    match step
    case PlayOuter => if s.c.closeReq {} else if s.c.phase.Idle? {} else if s.c.phase.BeforeSynth? {} else {}
    case PlayWake => if s.c.closeReq {} else if s.c.phase.Idle? {} else if s.c.phase.BeforeSynth? {} else {}
    case PlayPop => if s.c.stopReq {} else {}
    case _ =>
  }

  lemma StopKeepsControl(s: State, step: Step)
    requires Enabled(s, step) && StopStep(step) && InvControl(s.c)
    ensures InvControl(DoStop(s, step).c)
  {
    match step
    case StopLoop => if s.c.closeReq {} else if s.c.stopReq {} else {}
    case StopWake => if s.c.closeReq {} else {}
    case _ =>
  }

  // The shared queue.

  lemma PushKeepsQueue(maxsize: nat, s: State, e: Entry)
    requires InvQueue(maxsize, s) && (e.Audio? ==> s.size <= maxsize)
    ensures InvQueue(maxsize, Push(s, e))
  {
    SumAppend(s.queue, e);
    BacklogPush(s.queue, e, maxsize);
  }

  lemma ServerKeepsQueue(maxsize: nat, s: State, step: Step)
    requires Enabled(s, step) && (ServerStep(step) || SynthStep(step)) && InvQueue(maxsize, s)
    ensures InvQueue(maxsize, Do(maxsize, s, step))
  {
    match step
    case BeforePlayCall => PushKeepsQueue(maxsize, s, Begin);
    case AddAudio(frames) => if s.size <= maxsize { PushKeepsQueue(maxsize, s, Audio(frames)); }
    case AddMark(id) => PushKeepsQueue(maxsize, s, Mark(id));
    case AddIcon(file) => PushKeepsQueue(maxsize, s, Icon(file));
    case AddEnd => PushKeepsQueue(maxsize, s, End);
    case _ =>
  }

  lemma DispatchKeepsQueue(maxsize: nat, s: State, e: Entry)
    requires s.c.play == Dispatching(e) && InvQueue(maxsize, s)
    ensures InvQueue(maxsize, DispatchEntry(s, e))
  {
    hide Sum, Backlog;
    assert s.allPushed == s.allDispatched + [e] + [] + s.queue;
    match e
    case Begin => if s.c.phase.BeforePlay? {} else {}
    case End => if s.c.phase.Speaking? {} else {}
    case _ =>
  }

  lemma PopKeepsQueue(maxsize: nat, s: State)
    requires Enabled(s, PlayPop) && InvQueue(maxsize, s)
    ensures InvQueue(maxsize, DoPlay(s, PlayPop))
  {
    if !s.c.stopReq {
      BacklogPop(s.queue, maxsize);
      assert s.queue == [s.queue[0]] + s.queue[1..];
    }
  }

  lemma PlayKeepsQueue(maxsize: nat, s: State, step: Step)
    requires Enabled(s, step) && PlayStep(step) && !step.PlayDispatch? && InvQueue(maxsize, s)
    ensures InvQueue(maxsize, DoPlay(s, step))
  {
    if step.PlayPop? {
      PopKeepsQueue(maxsize, s);
    }
  }

  lemma StopKeepsQueue(maxsize: nat, s: State, step: Step)
    requires Enabled(s, step) && StopStep(step) && InvControl(s.c) && InvQueue(maxsize, s)
    ensures InvQueue(maxsize, DoStop(s, step))
  {
  }

  // The account of the current message.

  /** A new message starts only when nothing of the last one is left. */
  lemma NothingLeft(s: State)
    requires InvAccount(s) && InvPhase(s.c, s.m) && InvMessage(s.c, s.m) && InvLog(s)
    requires !s.m.open && !StopInProgress(s.c)
    ensures s.c.phase.Idle? && s.queue == [] && Hand(s.c.play) == []
  {
    if !s.m.cleared && s.past != [] {
      var k := |s.m.reported| - 1;
      assert s.m.pushed[k] == s.m.reported[k];
    }
  }

  lemma ServerKeepsAccount(s: State, step: Step)
    requires Enabled(s, step) && ServerStep(step)
    requires InvControl(s.c) && InvAccount(s) && InvPhase(s.c, s.m) && InvMessage(s.c, s.m) && InvLog(s)
    ensures InvAccount(DoServer(s, step))
  {
    if step.BeforeSynthCall? {
      NothingLeft(s);
    }
  }

  lemma SynthKeepsAccount(maxsize: nat, s: State, step: Step)
    requires Enabled(s, step) && SynthStep(step)
    requires InvAccount(s)
    ensures InvAccount(DoSynth(maxsize, s, step))
  {
  }

  lemma ReportKeepsAccount(s: State, e: Entry, ev: Event, c: Control)
    requires InvAccount(s) && Hand(s.c.play) == [e] && s.m.dropped == []
    requires Hand(c.play) == [] && c.stop == s.c.stop
    ensures InvAccount(Report(s, e, ev, c))
  {
  }

  lemma DropKeepsAccount(s: State, e: Entry, c: Control)
    requires InvAccount(s) && Hand(s.c.play) == [e] && s.m.dropped == []
    requires Hand(c.play) == [] && c.stop == s.c.stop
    ensures InvAccount(Drop(s, e, c))
  {
  }

  lemma SameHandKeepsAccount(s: State, c: Control)
    requires InvAccount(s) && !s.m.cleared && Hand(c.play) == Hand(s.c.play) && c.stop == s.c.stop
    ensures InvAccount(s.(c := c))
  {
  }

  lemma SpokenKeepsAccount(s: State, e: Entry)
    requires s.c.play == Dispatching(e) && InvAccount(s) && s.m.dropped == [] && (e.Audio? || e.Icon? || e.Mark?)
    ensures InvAccount(DispatchEntry(s, e))
  {
    hide InvAccount, Report;
    match e
    case Audio(frames) => ReportKeepsAccount(s, e, EvAudio(frames), s.c.(configured := true, play := AtPop));
    case Icon(file) => ReportKeepsAccount(s, e, EvIcon(file), s.c.(configured := false, play := AtPop));
    case Mark(id) => ReportKeepsAccount(s, e, EvMark(id), s.c.(play := MarkCheck(id)));
  }

  lemma BeginKeepsAccount(s: State)
    requires s.c.play == Dispatching(Begin) && InvAccount(s) && s.m.dropped == [] && !s.m.cleared
    ensures InvAccount(DispatchEntry(s, Begin))
  {
    hide InvAccount, Drop;
    if s.c.phase.BeforePlay? {
      SameHandKeepsAccount(s, s.c.(phase := Speaking, play := ReportingBegin));
    } else {
      DropKeepsAccount(s, Begin, s.c.(play := AtPop));
    }
  }

  lemma EndKeepsAccount(s: State)
    requires s.c.play == Dispatching(End) && InvAccount(s) && s.m.dropped == [] && !s.m.cleared
    ensures InvAccount(DispatchEntry(s, End))
  {
    hide InvAccount, Drop;
    if s.c.phase.Speaking? {
      SameHandKeepsAccount(s, EndSection(s.c));
    } else {
      DropKeepsAccount(s, End, s.c.(configured := false, play := AtPop));
    }
  }

  lemma DispatchKeepsAccount(s: State, e: Entry)
    requires s.c.play == Dispatching(e) && InvAccount(s) && InvPhase(s.c, s.m)
    ensures InvAccount(DispatchEntry(s, e))
  {
    assert s.m.dropped == [] && !s.m.cleared;
    hide InvAccount, InvPhase, DispatchEntry;
    match e
    case Begin => BeginKeepsAccount(s);
    case End => EndKeepsAccount(s);
    case _ => SpokenKeepsAccount(s, e);
  }

  lemma PopKeepsAccount(s: State)
    requires Enabled(s, PlayPop) && InvControl(s.c) && InvAccount(s)
    ensures InvAccount(DoPlay(s, PlayPop))
  {
    if !s.c.stopReq {
      assert s.queue == [s.queue[0]] + s.queue[1..];
    }
  }

  lemma WaitKeepsAccount(s: State, step: Step)
    requires Enabled(s, step) && (step.PlayOuter? || step.PlayWake?) && InvControl(s.c) && InvAccount(s)
    ensures InvAccount(DoPlay(s, step))
  {
  }

  lemma MarkCheckKeepsAccount(s: State)
    requires Enabled(s, PlayMarkCheck) && InvControl(s.c) && InvAccount(s)
    ensures InvAccount(DoPlay(s, PlayMarkCheck))
  {
    hide SpdMark;
  }

  lemma ReportsKeepAccount(s: State, step: Step)
    requires Enabled(s, step) && (step.PlayReportBegin? || step.PlayReportEnd?) && InvAccount(s) && InvPhase(s.c, s.m)
    ensures InvAccount(DoPlay(s, step))
  {
    assert s.m.dropped == [];
    if step.PlayReportBegin? {
      ReportKeepsAccount(s, Begin, EvBegin, s.c.(play := AtPop));
    } else {
      ReportKeepsAccount(s, End, EvEnd, s.c.(play := AtOuter));
    }
  }

  lemma PlayKeepsAccount(s: State, step: Step)
    requires Enabled(s, step) && PlayStep(step) && !step.PlayDispatch?
    requires InvControl(s.c) && InvAccount(s) && InvPhase(s.c, s.m)
    ensures InvAccount(DoPlay(s, step))
  {
    hide InvAccount, InvControl, InvPhase, DoPlay, Enabled;
    match step
    case PlayPop => PopKeepsAccount(s);
    case PlayMarkCheck => MarkCheckKeepsAccount(s);
    case PlayReportBegin => ReportsKeepAccount(s, step);
    case PlayReportEnd => ReportsKeepAccount(s, step);
    case _ => WaitKeepsAccount(s, step);
  }

  lemma StopKeepsAccount(s: State, step: Step)
    requires Enabled(s, step) && StopStep(step) && InvControl(s.c) && InvAccount(s)
    ensures InvAccount(DoStop(s, step))
  {
  }

  // Phases.

  lemma ServerKeepsPhase(s: State, step: Step)
    requires Enabled(s, step) && ServerStep(step) && InvControl(s.c) && InvPhase(s.c, s.m)
    ensures var t := DoServer(s, step); InvPhase(t.c, t.m)
  {
  }

  lemma SynthKeepsPhase(maxsize: nat, s: State, step: Step)
    requires Enabled(s, step) && SynthStep(step) && InvControl(s.c) && InvPhase(s.c, s.m)
    ensures var t := DoSynth(maxsize, s, step); InvPhase(t.c, t.m)
  {
  }

  lemma EndKeepsPhase(s: State)
    requires s.c.play == Dispatching(End)
    requires InvControl(s.c) && InvAccount(s) && InvPhase(s.c, s.m) && InvMessage(s.c, s.m)
    ensures var t := DispatchEntry(s, End); InvPhase(t.c, t.m)
  {
    HandIsNext(s);
    assert Ended(s.m.pushed);
    if s.c.phase.Speaking? {} else {}
  }

  lemma BeginKeepsPhase(s: State)
    requires s.c.play == Dispatching(Begin)
    requires InvControl(s.c) && InvAccount(s) && InvPhase(s.c, s.m) && InvMessage(s.c, s.m)
    ensures var t := DispatchEntry(s, Begin); InvPhase(t.c, t.m)
  {
    HandIsNext(s);
    if s.c.phase.BeforePlay? {} else {}
  }

  lemma SpokenKeepsPhase(s: State, e: Entry)
    requires s.c.play == Dispatching(e) && (e.Audio? || e.Icon? || e.Mark?)
    requires InvControl(s.c) && InvAccount(s) && InvPhase(s.c, s.m)
    ensures var t := DispatchEntry(s, e); InvPhase(t.c, t.m)
  {
    HandIsNext(s);
  }

  lemma DispatchKeepsPhase(s: State, e: Entry)
    requires s.c.play == Dispatching(e)
    requires InvControl(s.c) && InvAccount(s) && InvPhase(s.c, s.m) && InvMessage(s.c, s.m)
    ensures var t := DispatchEntry(s, e); InvPhase(t.c, t.m)
  {
    hide InvControl, InvAccount, InvPhase, InvMessage, DispatchEntry;
    match e
    case Begin => BeginKeepsPhase(s);
    case End => EndKeepsPhase(s);
    case _ => SpokenKeepsPhase(s, e);
  }

  lemma EndReportKeepsPhase(s: State)
    requires s.c.play.ReportingEnd?
    requires InvControl(s.c) && InvAccount(s) && InvPhase(s.c, s.m) && InvMessage(s.c, s.m)
    ensures var t := DoPlay(s, PlayReportEnd); InvPhase(t.c, t.m)
  {
    HandIsNext(s);
    assert Ended(s.m.pushed);
  }

  lemma BeginReportKeepsPhase(s: State)
    requires s.c.play.ReportingBegin? && InvPhase(s.c, s.m)
    ensures var t := DoPlay(s, PlayReportBegin); InvPhase(t.c, t.m)
  {
  }

  lemma WaitKeepsPhase(s: State, step: Step)
    requires Enabled(s, step) && (step.PlayOuter? || step.PlayWake?)
    requires InvControl(s.c) && InvPhase(s.c, s.m)
    ensures var t := DoPlay(s, step); InvPhase(t.c, t.m)
  {
    if s.c.closeReq {} else if s.c.phase.Idle? {} else if s.c.phase.BeforeSynth? {} else {}
  }

  lemma PopKeepsPhase(s: State)
    requires Enabled(s, PlayPop) && InvControl(s.c) && InvAccount(s) && InvPhase(s.c, s.m)
    ensures var t := DoPlay(s, PlayPop); InvPhase(t.c, t.m)
  {
    if s.c.stopReq {} else {}
  }

  lemma PlayKeepsPhase(s: State, step: Step)
    requires Enabled(s, step) && PlayStep(step) && !step.PlayDispatch?
    requires InvControl(s.c) && InvAccount(s) && InvPhase(s.c, s.m) && InvMessage(s.c, s.m)
    ensures var t := DoPlay(s, step); InvPhase(t.c, t.m)
  {
    hide SpdMark;
    match step
    case PlayOuter => WaitKeepsPhase(s, step);
    case PlayWake => WaitKeepsPhase(s, step);
    case PlayPop => PopKeepsPhase(s);
    case PlayReportBegin => BeginReportKeepsPhase(s);
    case PlayReportEnd => EndReportKeepsPhase(s);
    case _ =>
  }

  lemma WakeKeepsPhase(s: State, step: Step)
    requires Enabled(s, step) && (step.StopLoop? || step.StopWake? || step.StopSetIdle?)
    requires InvControl(s.c) && InvAccount(s) && InvPhase(s.c, s.m)
    ensures var t := DoStop(s, step); InvPhase(t.c, t.m)
  {
    if s.c.closeReq {} else {}
  }

  lemma StopKeepsPhase(s: State, step: Step)
    requires Enabled(s, step) && StopStep(step) && InvControl(s.c) && InvAccount(s) && InvPhase(s.c, s.m)
    ensures var t := DoStop(s, step); InvPhase(t.c, t.m)
  {
    match step
    case StopLoop => WakeKeepsPhase(s, step);
    case StopWake => WakeKeepsPhase(s, step);
    case StopSetIdle => WakeKeepsPhase(s, step);
    case _ =>
  }

  // Messages.

  lemma ServerKeepsMessage(s: State, step: Step)
    requires Enabled(s, step) && ServerStep(step) && InvMessage(s.c, s.m)
    ensures var t := DoServer(s, step); InvMessage(t.c, t.m)
  {
  }

  lemma SynthKeepsMessage(maxsize: nat, s: State, step: Step)
    requires Enabled(s, step) && SynthStep(step)
    requires InvControl(s.c) && InvPhase(s.c, s.m) && InvMessage(s.c, s.m)
    ensures var t := DoSynth(maxsize, s, step); InvMessage(t.c, t.m)
  {
  }

  lemma DispatchLeavesMessage(s: State, e: Entry)
    requires s.c.play == Dispatching(e)
    ensures var t := DispatchEntry(s, e);
            && t.m.pushed == s.m.pushed && t.m.open == s.m.open && t.c.synth == s.c.synth
            && (t.m.reported == s.m.reported || (e != End && t.m.reported == s.m.reported + [e]))
  {
    match e
    case Begin => if s.c.phase.BeforePlay? {} else {}
    case End => if s.c.phase.Speaking? {} else {}
    case _ =>
  }

  lemma DispatchKeepsMessage(s: State, e: Entry)
    requires s.c.play == Dispatching(e) && InvMessage(s.c, s.m)
    ensures var t := DispatchEntry(s, e); InvMessage(t.c, t.m)
  {
    DispatchLeavesMessage(s, e);
    hide DispatchEntry;
  }

  lemma PlayKeepsMessage(s: State, step: Step)
    requires Enabled(s, step) && PlayStep(step) && !step.PlayDispatch? && InvMessage(s.c, s.m)
    ensures var t := DoPlay(s, step); InvMessage(t.c, t.m)
  {
  }

  lemma StopKeepsMessage(s: State, step: Step)
    requires Enabled(s, step) && StopStep(step) && InvMessage(s.c, s.m)
    ensures var t := DoStop(s, step); InvMessage(t.c, t.m)
  {
  }

  // The log.

  lemma EventsAppend(es: seq<Entry>, e: Entry)
    ensures Events(es + [e]) == Events(es) + [Ev(e)]
  {
  }

  lemma ServerKeepsLog(s: State, step: Step)
    requires Enabled(s, step) && ServerStep(step) && InvControl(s.c) && InvAccount(s) && InvPhase(s.c, s.m) && InvLog(s)
    ensures InvLog(DoServer(s, step))
  {
  }

  lemma SynthKeepsLog(maxsize: nat, s: State, step: Step)
    requires Enabled(s, step) && SynthStep(step) && InvControl(s.c) && InvAccount(s) && InvPhase(s.c, s.m) && InvLog(s)
    ensures InvLog(DoSynth(maxsize, s, step))
  {
  }

  lemma DispatchKeepsLog(s: State, e: Entry)
    requires s.c.play == Dispatching(e) && InvControl(s.c) && InvAccount(s) && InvPhase(s.c, s.m) && InvLog(s)
    ensures InvLog(DispatchEntry(s, e))
  {
    EventsAppend(s.m.reported, e);
    match e
    case Begin => if s.c.phase.BeforePlay? {} else {}
    case End => if s.c.phase.Speaking? {} else {}
    case _ =>
  }

  lemma BeginReportKeepsLog(s: State)
    requires s.c.play.ReportingBegin?
    requires InvControl(s.c) && InvAccount(s) && InvPhase(s.c, s.m) && InvLog(s)
    ensures InvLog(DoPlay(s, PlayReportBegin))
  {
    EventsAppend(s.m.reported, Begin);
    hide Events;
  }

  lemma EndReportKeepsLog(s: State)
    requires s.c.play.ReportingEnd?
    requires InvControl(s.c) && InvAccount(s) && InvPhase(s.c, s.m) && InvLog(s)
    ensures InvLog(DoPlay(s, PlayReportEnd))
  {
    EventsAppend(s.m.reported, End);
    hide Events;
  }

  lemma PlayKeepsLog(s: State, step: Step)
    requires Enabled(s, step) && PlayStep(step) && !step.PlayDispatch?
    requires InvControl(s.c) && InvAccount(s) && InvPhase(s.c, s.m) && InvLog(s)
    ensures InvLog(DoPlay(s, step))
  {
    match step
    case PlayReportBegin => BeginReportKeepsLog(s);
    case PlayReportEnd => EndReportKeepsLog(s);
    case _ => hide Events;
  }

  lemma VerdictKeepsLog(s: State)
    requires Enabled(s, StopReport) && InvControl(s.c) && InvAccount(s) && InvLog(s)
    ensures InvLog(DoStop(s, StopReport))
  {
    if s.c.stop.saved.PauseMarkReported? {} else {}
  }

  lemma ResetKeepsLog(s: State)
    requires s.c.stop.Resetting? && InvControl(s.c) && InvAccount(s) && InvLog(s)
    ensures InvLog(s.(c := Reset(s.c).(stop := Reporting(s.c.pause))))
  {
    hide Events;
  }

  lemma WakeKeepsLog(s: State, step: Step)
    requires Enabled(s, step) && (step.StopLoop? || step.StopWake?)
    requires InvControl(s.c) && InvAccount(s) && InvLog(s)
    ensures InvLog(DoStop(s, step))
  {
    hide Events;
    if s.c.closeReq {} else {}
  }

  lemma StopKeepsLog(s: State, step: Step)
    requires Enabled(s, step) && StopStep(step) && InvControl(s.c) && InvAccount(s) && InvLog(s)
    ensures InvLog(DoStop(s, step))
  {
    match step
    case StopLoop => WakeKeepsLog(s, step);
    case StopWake => WakeKeepsLog(s, step);
    case StopReset => ResetKeepsLog(s);
    case StopReport => VerdictKeepsLog(s);
    case _ => hide Events;
  }

  /** The shape of a log, from the shape of what was pushed. */
  lemma ShapeIsGood(pushed: seq<Entry>, r: seq<Entry>, verdict: seq<Event>)
    requires r <= pushed && (r != [] ==> Begun(pushed))
    requires forall i | 0 < i < |pushed| :: pushed[i] != Begin
    requires forall i | 0 <= i < |pushed| - 1 :: pushed[i] != End
    requires verdict == [] || verdict == [EvStop] || (verdict == [EvPause] && LastIsSpdMark(r))
    ensures GoodLog(Events(r) + verdict)
  {
    var l := Events(r) + verdict;
    assert forall i | 0 <= i < |r| :: l[i] == Ev(r[i]) && r[i] == pushed[i];
  }

  lemma LogIsGood(s: State)
    requires InvAccount(s) && InvPhase(s.c, s.m) && InvMessage(s.c, s.m) && InvLog(s)
    ensures GoodLog(s.m.log)
  {
    ShapeIsGood(s.m.pushed, s.m.reported, s.m.verdict);
  }

  lemma LogIsComplete(s: State)
    requires InvLog(s) && !s.m.open && s.past != []
    ensures Complete(s.m.log)
  {
    var m := s.m;
    if m.verdict == [] {
      assert m.log[|m.log| - 1] == Ev(m.reported[|m.reported| - 1]);
    } else {
      assert m.log[|m.log| - 1] == m.verdict[0];
    }
  }

  lemma PastAppend(past: seq<seq<Event>>, l: seq<Event>)
    requires InvPast(past) && GoodLog(l) && (past != [] ==> Complete(l))
    ensures InvPast(past + [l])
  {
  }

  lemma CurrentLogJoinsPast(s: State)
    requires InvAccount(s) && InvPhase(s.c, s.m) && InvMessage(s.c, s.m) && InvLog(s) && InvPast(s.past) && !s.m.open
    ensures InvPast(s.past + [s.m.log])
  {
    LogIsGood(s);
    if s.past != [] {
      LogIsComplete(s);
    }
    PastAppend(s.past, s.m.log);
  }

  lemma StepKeepsPast(maxsize: nat, s: State, step: Step)
    requires Enabled(s, step) && InvPast(s.past)
    requires step.BeforeSynthCall? ==> InvPast(s.past + [s.m.log])
    ensures InvPast(Do(maxsize, s, step).past)
  {
  }

  lemma StepKeeps(maxsize: nat, s: State, step: Step)
    requires Enabled(s, step) && Inv(maxsize, s)
    ensures Inv(maxsize, Do(maxsize, s, step))
  {
    if step.BeforeSynthCall? {
      CurrentLogJoinsPast(s);
    }
    StepKeepsPast(maxsize, s, step);
    if ServerStep(step) || SynthStep(step) {
      ServerKeepsControl(maxsize, s, step);
      ServerKeepsQueue(maxsize, s, step);
      if ServerStep(step) {
        ServerKeepsMessage(s, step);
        ServerKeepsAccount(s, step);
        ServerKeepsPhase(s, step);
        ServerKeepsLog(s, step);
      } else {
        SynthKeepsMessage(maxsize, s, step);
        SynthKeepsAccount(maxsize, s, step);
        SynthKeepsPhase(maxsize, s, step);
        SynthKeepsLog(maxsize, s, step);
      }
    } else if StopStep(step) {
      StopKeepsControl(s, step);
      StopKeepsQueue(maxsize, s, step);
      StopKeepsAccount(s, step);
      StopKeepsPhase(s, step);
      StopKeepsMessage(s, step);
      StopKeepsLog(s, step);
    } else if step.PlayDispatch? {
      var e := s.c.play.entry;
      DispatchKeepsControl(s, e);
      DispatchKeepsQueue(maxsize, s, e);
      DispatchKeepsAccount(s, e);
      DispatchKeepsPhase(s, e);
      DispatchKeepsMessage(s, e);
      DispatchKeepsLog(s, e);
    } else {
      PlayKeepsControl(s, step);
      PlayKeepsQueue(maxsize, s, step);
      PlayKeepsAccount(s, step);
      PlayKeepsPhase(s, step);
      PlayKeepsMessage(s, step);
      PlayKeepsLog(s, step);
    }
  }
}
