/** The speak queue of src/common/speak_queue.c as a step system.

    Four parties share one mutex: the server thread (before_synth, stop, pause, flush, terminate), the
    synthesizer callback (before_play, add_*), the play thread and the stop-or-pause thread.  Every critical
    section is one atomic step, every report to the server another.  A condition wait is a step that is enabled
    only when the wait can return.  The branch with an opened audio device (lines 646-663) is the one modelled. */
module SpeakQueue {

  datatype Phase = Idle | BeforeSynth | BeforePlay | Speaking
  datatype PauseState = PauseOff | PauseRequested | PauseMarkReported

  /** What the playback queue holds. An audio chunk is the sequence of its frames. */
  datatype Entry = Audio(frames: seq<int>) | Mark(id: string) | Icon(file: string) | Begin | End

  /** What the outside observes. */
  datatype Event = EvAudio(frames: seq<int>) | EvMark(id: string) | EvIcon(file: string)
                 | EvBegin | EvEnd | EvStop | EvPause

  datatype PlayPc =
    | AtOuter               // about to take the mutex at the head of the outer loop
    | Parked                // waiting for play_cond
    | AtPop                 // about to pop an entry
    | Dispatching(entry: Entry)
    | MarkCheck(id: string) // mark reported, critical section still to come
    | ReportingBegin
    | ReportingEnd
    | PlayExited

  datatype StopPc =
    | AtLoop | Waiting | SettingIdle | AwaitingPark | Cancelling | Clearing | Resetting
    | Reporting(saved: PauseState) | StopExited

  /** How far the synthesizer is with the current message: the usage contract of speak_queue.h. */
  datatype Synth = NoSynth | Started | Opened | Finished

  /** The shared flags and the program counters. */
  datatype Control = Control(
    phase: Phase, pause: PauseState, stopReq: bool, flushReq: bool, closeReq: bool,
    playSleeping: bool, stopSleeping: bool, configured: bool,
    play: PlayPc, stop: StopPc, synth: Synth)

  /** What happened to the current message: its entries pushed, dispatched with an event (`reported`) and without
      one (`dropped`), whether the queue was cleared under it, whether its terminal event is still due. */
  datatype Message = Message(
    pushed: seq<Entry>, reported: seq<Entry>, dropped: seq<Entry>, cleared: bool, open: bool,
    verdict: seq<Event>, log: seq<Event>)

  /** `queue` and `size` are the shared queue. The rest is history: entries pushed and dispatched since the last
      clear, and the logs of earlier messages. */
  datatype State = State(
    c: Control, queue: seq<Entry>, size: int, m: Message,
    allPushed: seq<Entry>, allDispatched: seq<Entry>, past: seq<seq<Event>>)

  const FRESH_MESSAGE := Message([], [], [], false, false, [], [])

  function Init(): State {
    State(Control(Idle, PauseOff, false, false, false, false, false, false, AtOuter, AtLoop, NoSynth),
          [], 0, FRESH_MESSAGE, [], [], [])
  }

  function Samples(e: Entry): nat {
    if e.Audio? then |e.frames| else 0
  }

  /** The samples waiting in a queue. */
  function Sum(q: seq<Entry>): nat {
    if q == [] then 0 else Samples(q[0]) + Sum(q[1..])
  }

  predicate SpdMark(id: string) {
    "__spd_" <= id
  }

  datatype Step =
    // server thread
    | BeforeSynthCall | StopCall | PauseCall | FlushCall | TerminateCall
    // synthesizer callback
    | BeforePlayCall | AddAudio(frames: seq<int>) | AddMark(id: string) | AddIcon(file: string) | AddEnd
    // play thread
    | PlayOuter | PlayWake | PlayPop | PlayDispatch | PlayMarkCheck | PlayReportBegin | PlayReportEnd
    // stop-or-pause thread
    | StopLoop | StopWake | StopSetIdle | StopParkSeen | StopCancel | StopClear | StopReset | StopReport

  predicate ServerStep(step: Step) {
    step.BeforeSynthCall? || step.StopCall? || step.PauseCall? || step.FlushCall? || step.TerminateCall?
  }

  predicate SynthStep(step: Step) {
    step.BeforePlayCall? || step.AddAudio? || step.AddMark? || step.AddIcon? || step.AddEnd?
  }

  predicate StopStep(step: Step) {
    step.StopLoop? || step.StopWake? || step.StopSetIdle? || step.StopParkSeen? || step.StopCancel?
    || step.StopClear? || step.StopReset? || step.StopReport?
  }

  predicate PlayStep(step: Step) {
    !ServerStep(step) && !SynthStep(step) && !StopStep(step)
  }

  predicate StopActive(c: Control) {
    c.stop.SettingIdle? || c.stop.AwaitingPark? || c.stop.Cancelling? || c.stop.Clearing? || c.stop.Resetting?
    || c.stop.Reporting?
  }

  predicate StopInProgress(c: Control) {
    c.stopReq || StopActive(c)
  }

  /** When a step can be taken: for the two threads where their program counter and their waits allow it, for
      the server and the synthesizer what speak_queue.h asks of them. */
  predicate Enabled(s: State, step: Step) {
    match step
    case BeforeSynthCall => !s.m.open && !StopInProgress(s.c) && !s.c.closeReq
    case StopCall => !s.c.closeReq
    case PauseCall => !s.c.closeReq
    case FlushCall => !s.c.closeReq
    case TerminateCall => !s.c.closeReq
    case BeforePlayCall => s.c.synth.Started? || s.c.synth.Opened?
    case AddAudio(_) => s.c.synth.Opened?
    case AddMark(_) => s.c.synth.Opened?
    case AddIcon(_) => s.c.synth.Opened?
    case AddEnd => s.c.synth.Opened?
    case PlayOuter => s.c.play.AtOuter?
    case PlayWake => s.c.play.Parked?
    case PlayPop => s.c.play.AtPop? && (s.c.stopReq || s.queue != [])
    case PlayDispatch => s.c.play.Dispatching?
    case PlayMarkCheck => s.c.play.MarkCheck?
    case PlayReportBegin => s.c.play.ReportingBegin?
    case PlayReportEnd => s.c.play.ReportingEnd?
    case StopLoop => s.c.stop.AtLoop?
    case StopWake => s.c.stop.Waiting? && s.c.stopReq
    case StopSetIdle => s.c.stop.SettingIdle?
    case StopParkSeen => s.c.stop.AwaitingPark? && s.c.playSleeping
    case StopCancel => s.c.stop.Cancelling?
    case StopClear => s.c.stop.Clearing?
    case StopReset => s.c.stop.Resetting?
    case StopReport => s.c.stop.Reporting?
  }

  // ---------------------------------------------------------------- the critical sections

  /** playback_queue_push */
  function Push(s: State, e: Entry): State {
    s.(queue := s.queue + [e], size := s.size + Samples(e),
       m := s.m.(pushed := s.m.pushed + [e]), allPushed := s.allPushed + [e])
  }

  /** The entry in hand is dispatched and its event goes out. */
  function Report(s: State, e: Entry, ev: Event, c: Control): State {
    s.(c := c, m := s.m.(reported := s.m.reported + [e], log := s.m.log + [ev]),
       allDispatched := s.allDispatched + [e])
  }

  /** The entry in hand is dispatched without an event. */
  function Drop(s: State, e: Entry, c: Control): State {
    s.(c := c, m := s.m.(dropped := s.m.dropped + [e]), allDispatched := s.allDispatched + [e])
  }

  /** module_speak_queue_reset */
  function Reset(c: Control): Control {
    c.(phase := Idle, pause := PauseOff, stopReq := false, flushReq := false)
  }

  /** The outer wait of the play thread, its condition being checked. */
  function OuterWait(c: Control): Control {
    if c.closeReq then c.(playSleeping := true, play := PlayExited)
    else if c.phase.Idle? || c.phase.BeforeSynth? then c.(playSleeping := true, play := Parked)
    else c.(playSleeping := false, play := AtPop)
  }

  /** The END case of the play thread up to its report. */
  function EndSection(c: Control): Control
    requires c.phase.Speaking?
  {
    if c.stopReq then c.(configured := false, play := ReportingEnd)
    else c.(configured := false, phase := Idle, pause := PauseOff, play := ReportingEnd)
  }

  function MarkSection(c: Control, id: string): Control {
    if c.phase.Speaking? && c.pause.PauseRequested? && c.stopSleeping && SpdMark(id)
    then c.(stopReq := true, pause := PauseMarkReported, play := AtOuter)
    else c.(play := AtPop)
  }

  function DispatchEntry(s: State, e: Entry): State {
    match e
    case Audio(frames) => Report(s, e, EvAudio(frames), s.c.(configured := true, play := AtPop))
    case Icon(file) => Report(s, e, EvIcon(file), s.c.(configured := false, play := AtPop))
    case Mark(id) => Report(s, e, EvMark(id), s.c.(play := MarkCheck(id)))
    case Begin =>
      if s.c.phase.BeforePlay? then s.(c := s.c.(phase := Speaking, play := ReportingBegin))
      else Drop(s, e, s.c.(play := AtPop))
    case End =>
      if s.c.phase.Speaking? then s.(c := EndSection(s.c))
      else Drop(s, e, s.c.(configured := false, play := AtPop))
  }

  function DoServer(s: State, step: Step): State
    requires Enabled(s, step) && ServerStep(step)
  {
    var c := s.c;
    match step
    case BeforeSynthCall =>
      if !c.phase.Idle? then s
      else s.(c := Reset(c).(phase := BeforeSynth, synth := Started),
              past := s.past + [s.m.log], m := FRESH_MESSAGE.(open := true))
    case StopCall =>
      if !c.phase.Idle? && !c.stopReq && c.stopSleeping then s.(c := c.(stopReq := true)) else s
    case PauseCall =>
      if c.pause.PauseOff? && !c.stopReq then s.(c := c.(pause := PauseRequested)) else s
    case FlushCall => s.(c := c.(flushReq := true))
    case TerminateCall => s.(c := c.(stopReq := true, closeReq := true))
  }

  function DoSynth(maxsize: nat, s: State, step: Step): State
    requires Enabled(s, step) && SynthStep(step)
  {
    var c := s.c;
    match step
    case BeforePlayCall =>
      if c.phase.BeforeSynth? then Push(s.(c := c.(phase := BeforePlay, synth := Opened)), Begin)
      else s.(c := c.(synth := Opened))
    case AddAudio(frames) =>
      // with no room and nobody asking to give up the caller keeps waiting; with somebody asking it gets FALSE
      if c.phase.Idle? || c.stopReq || c.flushReq || s.size > maxsize then s else Push(s, Audio(frames))
    case AddMark(id) => Push(s, Mark(id))
    case AddIcon(file) => Push(s, Icon(file))
    case AddEnd => Push(s.(c := c.(synth := Finished)), End)
  }

  function DoPlay(s: State, step: Step): State
    requires Enabled(s, step) && PlayStep(step)
  {
    var c := s.c;
    match step
    case PlayOuter => s.(c := OuterWait(c.(configured := false)))
    case PlayWake => s.(c := OuterWait(c))
    case PlayPop =>
      if c.stopReq then s.(c := c.(play := AtOuter))
      else s.(c := c.(play := Dispatching(s.queue[0])), queue := s.queue[1..], size := s.size - Samples(s.queue[0]))
    case PlayDispatch => DispatchEntry(s, c.play.entry)
    case PlayMarkCheck => s.(c := MarkSection(c, c.play.id))
    case PlayReportBegin => Report(s, Begin, EvBegin, c.(play := AtPop))
    case PlayReportEnd =>
      var t := Report(s, End, EvEnd, c.(play := AtOuter));
      t.(m := t.m.(open := false))
  }

  function DoStop(s: State, step: Step): State
    requires Enabled(s, step) && StopStep(step)
  {
    var c := s.c;
    match step
    case StopLoop =>
      if c.closeReq then s.(c := c.(stop := StopExited))
      else if !c.stopReq then s.(c := c.(stopSleeping := true, stop := Waiting))
      else s.(c := c.(stop := SettingIdle))
    case StopWake =>
      s.(c := c.(stopSleeping := false, stop := if c.closeReq then StopExited else SettingIdle))
    case StopSetIdle => s.(c := c.(phase := Idle, stop := AwaitingPark))
    case StopParkSeen => s.(c := c.(stop := Cancelling))
    case StopCancel => s.(c := c.(synth := Finished, stop := Clearing))
    case StopClear =>
      s.(c := c.(stop := Resetting), queue := [], size := 0, m := s.m.(cleared := true),
         allPushed := [], allDispatched := [])
    case StopReset => s.(c := Reset(c).(stop := Reporting(c.pause)))
    case StopReport =>
      var ev := if c.stop.saved.PauseMarkReported? then EvPause else EvStop;
      s.(c := c.(stop := AtLoop), m := s.m.(log := s.m.log + [ev], verdict := s.m.verdict + [ev], open := false))
  }

  function Do(maxsize: nat, s: State, step: Step): State
    requires Enabled(s, step)
  {
    if ServerStep(step) then DoServer(s, step)
    else if SynthStep(step) then DoSynth(maxsize, s, step)
    else if StopStep(step) then DoStop(s, step)
    else DoPlay(s, step)
  }
}
