/** The pipeline of src/modules/kitten_worker.c: callers submit tasks and ask to stop, one thread generates audio, one
    plays it; two queues between them, and a stop flag. One step is what a thread does between two looks at what it
    shares. */
module KittenWorker {
  import opened Collections

  const MAX_CHARS := 399

  // ---------------------------------------------------------------- cutting a text

  /** Pieces of `max` characters, the last one of what is left. */
  function Split(s: string, max: int): seq<string> {
    if s == "" || max <= 0 then []
    else if |s| <= max then [s]
    else [s[..max]] + Split(s[max..], max)
  }

  lemma SplitStep(s: string, p: nat, max: int)
    requires p < |s| && max > 0
    ensures Split(s[p..], max) ==
            if p + max < |s| then [s[p..p + max]] + Split(s[p + max..], max) else [s[p..|s|]]
  {
    if p + max < |s| {
      assert s[p..][..max] == s[p..p + max] && s[p..][max..] == s[p + max..];
    } else {
      assert s[p..] == s[p..|s|];
    }
  }

  /** split_gstring_utf8, on characters. */
  method SplitUtf8(input: string, max: int) returns (chunks: seq<string>)
    ensures chunks == Split(input, max)
  {
    hide Split;
    chunks := [];
    if |input| == 0 || max <= 0 {
      NothingToSplit(input, max);
      return;
    }
    var start := 0;
    assert input[0..] == input;
    while start < |input|
      invariant start <= |input| && Split(input, max) == chunks + Split(input[start..], max)
    {
      SplitStep(input, start, max);
      var nextBoundary := start + max;
      if nextBoundary >= |input| {
        nextBoundary := |input|;
        NothingToSplit(input[nextBoundary..], max);
      }
      assert Split(input[start..], max) == [input[start..nextBoundary]] + Split(input[nextBoundary..], max);
      chunks := chunks + [input[start..nextBoundary]];
      start := nextBoundary;
    }
    NothingToSplit(input[start..], max);
  }

  lemma NothingToSplit(s: string, max: int)
    requires s == "" || max <= 0
    ensures Split(s, max) == []
  {
  }

  /** The pieces are the text, none is empty, none too long, and all but the last are full. */
  lemma {:induction false} PiecesOfText(s: string, max: int)
    requires max > 0
    ensures Concat(Split(s, max)) == s
    ensures forall i | 0 <= i < |Split(s, max)| :: 0 < |Split(s, max)[i]| <= max
    ensures forall i | 0 <= i < |Split(s, max)| - 1 :: |Split(s, max)[i]| == max
  {
    if s != "" {
      if |s| > max {
        PiecesOfText(s[max..], max);
        assert s == s[..max] + s[max..];
      } else {
        assert [s][1..] == [];
      }
    }
  }

  // ---------------------------------------------------------------- the threads

  /** A stretch of text and the mark behind it. */
  datatype Segment = Segment(text: string, mark: string)

  /** What the SSML of a message was parsed to. */
  datatype Task = Task(segments: seq<Segment>)

  datatype Wav = WavBegin | WavData(piece: string, mark: string) | WavEnd

  datatype Report = ReportBegin | ReportAudio(piece: string) | ReportMark(mark: string) | ReportEnd

  /** Where the generating thread is: `n` segments of its task are generated, `i` pieces of the next one. */
  datatype Gen =
    | Waiting
    | Popped(task: Task)
    | Started(task: Task)
    | AtLoop(task: Task, n: nat)
    | Cutting(task: Task, n: nat, i: nat)
    | Checking(task: Task, n: nat)
    | Finishing(task: Task, n: nat)

  datatype Play = Listening | InHand(wav: Wav)

  /** A task that is over, with the number of segments generated and the bound set by the first stop, if any. */
  datatype Done = Done(task: Task, n: nat, limit: Option<nat>)

  /** The last fields record what happened: tasks submitted, tasks over, what was ever pushed to the wave queue, what
      of it was played, what was reported, and the bound on the segments of the current task. */
  datatype State = State(
    messages: seq<Task>,
    wavs: seq<Wav>,
    stop: bool,
    gen: Gen,
    play: Play,
    submitted: seq<Task>,
    done: seq<Done>,
    pushed: seq<Wav>,
    played: seq<Wav>,
    reported: seq<Report>,
    limit: Option<nat>)

  function Init(): State {
    State([], [], false, Waiting, Listening, [], [], [], [], [], None)
  }

  datatype Step = Submit(task: Task) | Stop | GenStep | PlayPop | PlayReport

  predicate Enabled(s: State, step: Step) {
    match step
    case Submit(task) => true
    case Stop => true
    case GenStep => s.gen.Waiting? ==> s.messages != []
    case PlayPop => s.play.Listening? && s.wavs != []
    case PlayReport => s.play.InHand?
  }

  function PiecesOf(segment: Segment): seq<string> {
    Split(segment.text, MAX_CHARS)
  }

  function Push(s: State, wav: Wav): State {
    s.(wavs := s.wavs + [wav], pushed := s.pushed + [wav])
  }

  /** How many segments can still be generated when the stop flag is raised now. */
  function LimitAt(gen: Gen): nat {
    match gen
    case AtLoop(task, n) => n + 1
    case Cutting(task, n, i) => n + 1
    case Checking(task, n) => n
    case Finishing(task, n) => n
    case _ => 1
  }

  predicate InTask(gen: Gen) {
    !gen.Waiting? && !gen.Popped?
  }

  /** model_stop_generation */
  function DoStop(s: State): State {
    s.(stop := true, limit := if InTask(s.gen) && s.limit.None? then Some(LimitAt(s.gen)) else s.limit)
  }

  /** _generation_thread and model_generate_speech */
  function DoGen(s: State): State
    requires Enabled(s, GenStep)
  {
    match s.gen
    case Waiting => s.(gen := Popped(s.messages[0]), messages := s.messages[1..])
    case Popped(task) => s.(gen := Started(task), stop := false, limit := None)
    case Started(task) => Push(s.(gen := AtLoop(task, 0)), WavBegin)
    case AtLoop(task, n) =>
      if n >= |task.segments| then s.(gen := Finishing(task, n)) else s.(gen := Cutting(task, n, 0))
    case Cutting(task, n, i) =>
      if n < |task.segments| then
        var chunks := PiecesOf(task.segments[n]);
        if i < |chunks| then
          // the test for the last chunk compares with the number of chunks
          Push(s.(gen := Cutting(task, n, i + 1)),
               WavData(chunks[i], if i == |chunks| then task.segments[n].mark else ""))
        else s.(gen := Checking(task, n + 1))
      else s
    case Checking(task, n) => s.(gen := if s.stop then Finishing(task, n) else AtLoop(task, n))
    case Finishing(task, n) => Push(s.(gen := Waiting, done := s.done + [Done(task, n, s.limit)]), WavEnd)
  }

  function ReportsOf(wav: Wav): seq<Report> {
    match wav
    case WavBegin => [ReportBegin]
    case WavEnd => [ReportEnd]
    case WavData(piece, mark) => [ReportAudio(piece)] + if mark != "" then [ReportMark(mark)] else []
  }

  function Do(s: State, step: Step): State
    requires Enabled(s, step)
  {
    match step
    case Submit(task) => s.(messages := s.messages + [task], submitted := s.submitted + [task])
    case Stop => DoStop(s)
    case GenStep => DoGen(s)
    case PlayPop => s.(play := InHand(s.wavs[0]), wavs := s.wavs[1..])
    case PlayReport =>
      s.(play := Listening, played := s.played + [s.play.wav], reported := s.reported + ReportsOf(s.play.wav))
  }

  // ---------------------------------------------------------------- what the threads should say

  function DataOf(pieces: seq<string>): (r: seq<Wav>)
    ensures |r| == |pieces|
  {
    seq(|pieces|, i requires 0 <= i < |pieces| => WavData(pieces[i], ""))
  }

  /** One DATA per piece of the first n segments. */
  function AudioOf(segments: seq<Segment>, n: nat): seq<Wav>
    requires n <= |segments|
  {
    if n == 0 then [] else AudioOf(segments, n - 1) + DataOf(PiecesOf(segments[n - 1]))
  }

  predicate DoneRight(d: Done) {
    && d.n <= |d.task.segments|
    && (d.n < |d.task.segments| ==> d.limit.Some?)
    && (d.limit.Some? ==> d.n <= d.limit.value)
  }

  /** BEGIN, the audio, END. */
  function Transcript(d: Done): seq<Wav>
    requires DoneRight(d)
  {
    [WavBegin] + AudioOf(d.task.segments, d.n) + [WavEnd]
  }

  predicate AllDoneRight(done: seq<Done>) {
    forall i | 0 <= i < |done| :: DoneRight(done[i])
  }

  function Transcripts(done: seq<Done>): seq<Wav>
    requires AllDoneRight(done)
  {
    if done == [] then [] else Transcripts(done[..|done| - 1]) + Transcript(done[|done| - 1])
  }

  function TasksOf(done: seq<Done>): seq<Task> {
    seq(|done|, i requires 0 <= i < |done| => done[i].task)
  }

  function CurrentTask(gen: Gen): seq<Task> {
    if gen.Waiting? then [] else [gen.task]
  }

  predicate GenRight(gen: Gen) {
    match gen
    case AtLoop(task, n) => n <= |task.segments|
    case Cutting(task, n, i) => n < |task.segments| && i <= |PiecesOf(task.segments[n])|
    case Checking(task, n) => n <= |task.segments|
    case Finishing(task, n) => n <= |task.segments|
    case _ => true
  }

  /** What of the current task was pushed. */
  function Partial(gen: Gen): seq<Wav>
    requires GenRight(gen)
  {
    match gen
    case AtLoop(task, n) => [WavBegin] + AudioOf(task.segments, n)
    case Cutting(task, n, i) =>
      [WavBegin] + AudioOf(task.segments, n) + DataOf(PiecesOf(task.segments[n])[..i])
    case Checking(task, n) => [WavBegin] + AudioOf(task.segments, n)
    case Finishing(task, n) => [WavBegin] + AudioOf(task.segments, n)
    case _ => []
  }

  function Hand(play: Play): seq<Wav> {
    if play.InHand? then [play.wav] else []
  }

  function Reports(wavs: seq<Wav>): seq<Report> {
    if wavs == [] then [] else Reports(wavs[..|wavs| - 1]) + ReportsOf(wavs[|wavs| - 1])
  }

  // ---------------------------------------------------------------- the invariant

  /** Tasks neither get lost nor overtake each other. */
  predicate InvTasks(s: State) {
    s.submitted == TasksOf(s.done) + CurrentTask(s.gen) + s.messages
  }

  /** What was pushed is the transcript of tasks that are over and of what is done of the current one. */
  predicate InvPushed(s: State) {
    && GenRight(s.gen) && AllDoneRight(s.done)
    && s.pushed == Transcripts(s.done) + Partial(s.gen)
  }

  /** What was pushed was played, is in hand or is queued. */
  predicate InvPlay(s: State) {
    s.pushed == s.played + Hand(s.play) + s.wavs && s.reported == Reports(s.played)
  }

  /** Since a task started the flag is raised exactly if a stop has set a bound, and the bound is kept. */
  predicate InvStop(s: State) {
    && (InTask(s.gen) ==> (s.stop <==> s.limit.Some?))
    && (s.limit.Some? ==>
          match s.gen
          case Started(task) => s.limit.value == 1
          case AtLoop(task, n) => n + 1 <= s.limit.value
          case Cutting(task, n, i) => n + 1 <= s.limit.value
          case Checking(task, n) => n <= s.limit.value
          case Finishing(task, n) => n <= s.limit.value
          case _ => true)
    && (s.gen.Finishing? && s.gen.n < |s.gen.task.segments| ==> s.limit.Some?)
  }

  predicate Inv(s: State) {
    InvTasks(s) && InvPushed(s) && InvPlay(s) && InvStop(s)
  }

  lemma InitKeeps()
    ensures Inv(Init())
  {
  }

  // ---------------------------------------------------------------- every step keeps it

  lemma GenKeepsTasks(s: State)
    requires Enabled(s, GenStep) && InvTasks(s) && GenRight(s.gen)
    ensures InvTasks(DoGen(s))
  {
    hide PiecesOf, InvStop;
    match s.gen
    case Waiting => assert s.messages == [s.messages[0]] + s.messages[1..];
    case Finishing(task, n) =>
      var d := Done(task, n, s.limit);
      assert TasksOf(s.done + [d]) == TasksOf(s.done) + [task];
    case _ =>
  }

  lemma TranscriptsStep(done: seq<Done>, d: Done)
    requires AllDoneRight(done) && DoneRight(d)
    ensures AllDoneRight(done + [d]) && Transcripts(done + [d]) == Transcripts(done) + Transcript(d)
  {
    assert (done + [d])[..|done|] == done;
  }

  lemma OneMorePiece(pieces: seq<string>, i: nat)
    requires i < |pieces|
    ensures DataOf(pieces[..i + 1]) == DataOf(pieces[..i]) + [WavData(pieces[i], "")]
  {
  }

  lemma LastPiece(segments: seq<Segment>, n: nat)
    requires n < |segments|
    ensures AudioOf(segments, n + 1) ==
            AudioOf(segments, n) + DataOf(PiecesOf(segments[n])[..|PiecesOf(segments[n])|])
    ensures DataOf(PiecesOf(segments[n])[..0]) == []
  {
    assert PiecesOf(segments[n])[..|PiecesOf(segments[n])|] == PiecesOf(segments[n]);
  }

  /** A piece more, and from the last piece of a segment to the next segment. */
  lemma CuttingGrows(task: Task, n: nat, i: nat)
    requires GenRight(Cutting(task, n, i))
    ensures var pieces := PiecesOf(task.segments[n]);
            && (i == 0 ==> Partial(Cutting(task, n, i)) == Partial(AtLoop(task, n)))
            && (i < |pieces| ==>
                  Partial(Cutting(task, n, i + 1)) == Partial(Cutting(task, n, i)) + [WavData(pieces[i], "")])
            && (i == |pieces| ==> Partial(Checking(task, n + 1)) == Partial(Cutting(task, n, i)))
  {
    hide PiecesOf;
    var pieces, front := PiecesOf(task.segments[n]), [WavBegin] + AudioOf(task.segments, n);
    LastPiece(task.segments, n);
    if i < |pieces| {
      OneMorePiece(pieces, i);
      Reassociate(front, DataOf(pieces[..i]), [WavData(pieces[i], "")]);
    } else {
      Reassociate([WavBegin], AudioOf(task.segments, n), DataOf(pieces[..i]));
    }
    hide AudioOf, DataOf;
    assert front + [] == front;
  }

  lemma PushKeeps(done: seq<Done>, gen: Gen, gen': Gen, pushed: seq<Wav>, wav: Wav)
    requires GenRight(gen) && GenRight(gen') && AllDoneRight(done)
    requires pushed == Transcripts(done) + Partial(gen) && Partial(gen') == Partial(gen) + [wav]
    ensures pushed + [wav] == Transcripts(done) + Partial(gen')
  {
    hide Transcripts, Partial;
  }

  lemma TaskEnds(done: seq<Done>, d: Done, pushed: seq<Wav>)
    requires AllDoneRight(done) && DoneRight(d)
    requires pushed == Transcripts(done) + Partial(Finishing(d.task, d.n))
    ensures AllDoneRight(done + [d]) && pushed + [WavEnd] == Transcripts(done + [d]) + Partial(Waiting)
  {
    TranscriptsStep(done, d);
    hide Transcripts, AudioOf;
    assert Transcript(d) == Partial(Finishing(d.task, d.n)) + [WavEnd];
    Reassociate(Transcripts(done), Partial(Finishing(d.task, d.n)), [WavEnd]);
  }

  lemma GenKeepsPushed(s: State)
    requires Enabled(s, GenStep) && InvPushed(s) && InvStop(s)
    ensures InvPushed(DoGen(s))
  {
    hide PiecesOf, Split, Transcripts, Partial, AudioOf;
    match s.gen
    case Waiting => SamePartial(s.gen, DoGen(s).gen);
    case Popped(task) => SamePartial(s.gen, DoGen(s).gen);
    case Started(task) =>
      BeginGrows(task);
      PushKeeps(s.done, s.gen, AtLoop(task, 0), s.pushed, WavBegin);
    case AtLoop(task, n) =>
      if n < |task.segments| {
        CuttingGrows(task, n, 0);
      } else {
        SamePartial(s.gen, DoGen(s).gen);
      }
    case Cutting(task, n, i) =>
      CuttingGrows(task, n, i);
      if i < |PiecesOf(task.segments[n])| {
        PushKeeps(s.done, s.gen, Cutting(task, n, i + 1), s.pushed, WavData(PiecesOf(task.segments[n])[i], ""));
      }
    case Checking(task, n) => SamePartial(s.gen, DoGen(s).gen);
    case Finishing(task, n) => TaskEnds(s.done, Done(task, n, s.limit), s.pushed);
  }

  lemma BeginGrows(task: Task)
    ensures Partial(AtLoop(task, 0)) == Partial(Started(task)) + [WavBegin]
  {
  }

  /** Nothing of a task is pushed yet. */
  predicate Silent(gen: Gen) {
    gen.Waiting? || gen.Popped? || gen.Started?
  }

  /** Between two segments. */
  predicate Between(gen: Gen) {
    gen.AtLoop? || gen.Checking? || gen.Finishing?
  }

  lemma SamePartial(gen: Gen, gen': Gen)
    requires GenRight(gen) && GenRight(gen')
    requires if Silent(gen) then Silent(gen')
             else Between(gen) && Between(gen') && gen.task == gen'.task && gen.n == gen'.n
    ensures Partial(gen) == Partial(gen')
  {
  }

  lemma GenKeepsPlay(s: State)
    requires Enabled(s, GenStep) && InvPlay(s)
    ensures InvPlay(DoGen(s))
  {
    hide PiecesOf, Reports, Split;
    match s.gen
    case Cutting(task, n, i) => if n < |task.segments| {}
    case _ =>
  }

  lemma GenKeepsStop(s: State)
    requires Enabled(s, GenStep) && GenRight(s.gen) && InvStop(s)
    ensures InvStop(DoGen(s))
  {
    hide PiecesOf, Split;
  }

  lemma PlayKeeps(s: State, step: Step)
    requires (step.PlayPop? || step.PlayReport?) && Enabled(s, step) && InvPlay(s)
    ensures InvPlay(Do(s, step))
  {
    hide Reports, ReportsOf;
    if step.PlayPop? {
      PopKeeps(s.played, s.wavs);
    } else {
      OneMoreReported(s.played, s.play.wav);
    }
  }

  lemma PopKeeps(played: seq<Wav>, wavs: seq<Wav>)
    requires wavs != []
    ensures played + [] + wavs == played + [wavs[0]] + wavs[1..]
  {
  }

  lemma OneMoreReported(played: seq<Wav>, wav: Wav)
    ensures Reports(played + [wav]) == Reports(played) + ReportsOf(wav)
    ensures forall rest: seq<Wav> :: played + [wav] + [] + rest == played + [wav] + rest
  {
    hide ReportsOf;
    assert (played + [wav])[..|played|] == played;
  }

  lemma StepKeeps(s: State, step: Step)
    requires Inv(s) && Enabled(s, step)
    ensures Inv(Do(s, step))
  {
    match step
    case GenStep =>
      GenKeepsTasks(s);
      GenKeepsPushed(s);
      GenKeepsPlay(s);
      GenKeepsStop(s);
      hide InvTasks, InvPushed, InvPlay, InvStop, DoGen;
    case PlayPop =>
      PlayKeeps(s, step);
      hide InvPlay;
    case PlayReport =>
      PlayKeeps(s, step);
      hide InvPlay;
    case Submit(task) =>
      assert s.submitted + [task] == TasksOf(s.done) + CurrentTask(s.gen) + (s.messages + [task]);
    case Stop =>
  }

  // ---------------------------------------------------------------- runs

  /** `run` is a run: the states, one more than the steps between them. */
  ghost predicate IsRun(run: seq<State>, steps: seq<Step>) {
    && |run| == |steps| + 1 && run[0] == Init()
    && forall i | 0 <= i < |steps| :: Enabled(run[i], steps[i]) && run[i + 1] == Do(run[i], steps[i])
  }

  lemma {:induction false} RunKeeps(run: seq<State>, steps: seq<Step>, i: nat)
    requires IsRun(run, steps) && i < |run|
    ensures Inv(run[i])
  {
    if i == 0 {
      InitKeeps();
    } else {
      RunKeeps(run, steps, i - 1);
      StepKeeps(run[i - 1], steps[i - 1]);
    }
  }

  lemma {:induction false} ReportsOfBoth(a: seq<Wav>, b: seq<Wav>)
    ensures Reports(a + b) == Reports(a) + Reports(b)
  {
    hide ReportsOf;
    if b == [] {
      assert a + b == a && Reports(a) + [] == Reports(a);
    } else {
      var n := |b| - 1;
      ReportsOfBoth(a, b[..n]);
      assert (a + b)[..|a + b| - 1] == a + b[..n];
      Reassociate(Reports(a), Reports(b[..n]), ReportsOf(b[n]));
    }
  }

  /** What the play thread has reported is, in submission order, for each task BEGIN, the audio of each piece of its
      first segments, END: all of that for tasks that are over but for what is still queued, and a front part of
      it for the current one. Only a stop that came after the start of a task leaves segments out. */
  lemma ReportsArePrefix(run: seq<State>, steps: seq<Step>, i: nat)
    requires IsRun(run, steps) && i < |run|
    ensures var s := run[i];
            && s.submitted == TasksOf(s.done) + CurrentTask(s.gen) + s.messages
            && AllDoneRight(s.done) && GenRight(s.gen)
            && s.reported <= Reports(Transcripts(s.done) + Partial(s.gen))
            && s.reported + Reports(Hand(s.play) + s.wavs) == Reports(Transcripts(s.done) + Partial(s.gen))
  {
    RunKeeps(run, steps, i);
    hide IsRun;
    var s := run[i];
    ReportsOfBoth(s.played, Hand(s.play) + s.wavs);
    Reassociate(s.played, Hand(s.play), s.wavs);
    hide Reports, Transcripts, Partial, InvStop, InvTasks;
    RunTasks(s);
  }

  lemma RunTasks(s: State)
    requires InvTasks(s)
    ensures s.submitted == TasksOf(s.done) + CurrentTask(s.gen) + s.messages
  {
  }

  // ---------------------------------------------------------------- what is said

  /** The text of the audio among some payloads. */
  function TextOf(wavs: seq<Wav>): string {
    if wavs == [] then ""
    else TextOf(wavs[..|wavs| - 1]) + if wavs[|wavs| - 1].WavData? then wavs[|wavs| - 1].piece else ""
  }

  function TextsOf(segments: seq<Segment>): string {
    if segments == [] then "" else TextsOf(segments[..|segments| - 1]) + segments[|segments| - 1].text
  }

  lemma {:induction false} TextOfBoth(a: seq<Wav>, b: seq<Wav>)
    ensures TextOf(a + b) == TextOf(a) + TextOf(b)
  {
    if b == [] {
      assert a + b == a && TextOf(a) + "" == TextOf(a);
    } else {
      var n := |b| - 1;
      TextOfBoth(a, b[..n]);
      assert (a + b)[..|a + b| - 1] == a + b[..n];
      Reassociate(TextOf(a), TextOf(b[..n]), if b[n].WavData? then b[n].piece else "");
    }
  }

  lemma {:induction false} TextOfData(pieces: seq<string>)
    ensures TextOf(DataOf(pieces)) == Concat(pieces)
  {
    if pieces != [] {
      var first := [WavData(pieces[0], "")];
      assert DataOf(pieces) == first + DataOf(pieces[1..]);
      TextOfData(pieces[1..]);
      TextOfBoth(first, DataOf(pieces[1..]));
      assert TextOf(first) == pieces[0] by {
        assert first[..0] == [] && TextOf([]) + pieces[0] == pieces[0];
      }
    }
  }

  lemma {:induction false} TextOfAudio(segments: seq<Segment>, n: nat)
    requires n <= |segments|
    ensures TextOf(AudioOf(segments, n)) == TextsOf(segments[..n])
  {
    if n > 0 {
      TextOfAudio(segments, n - 1);
      TextOfBoth(AudioOf(segments, n - 1), DataOf(PiecesOf(segments[n - 1])));
      TextOfData(PiecesOf(segments[n - 1]));
      PiecesOfText(segments[n - 1].text, MAX_CHARS);
      assert segments[..n][..n - 1] == segments[..n - 1];
    }
  }

  /** The audio of a task that is over is the text of its first segments, of all of them if no stop came. */
  lemma TextOfTranscript(d: Done)
    requires DoneRight(d)
    ensures TextOf(Transcript(d)) == TextsOf(d.task.segments[..d.n])
    ensures d.limit.None? ==> TextOf(Transcript(d)) == TextsOf(d.task.segments)
  {
    var audio := AudioOf(d.task.segments, d.n);
    TextOfAudio(d.task.segments, d.n);
    TextOfBoth([WavBegin] + audio, [WavEnd]);
    TextOfBoth([WavBegin], audio);
    assert TextOf([WavBegin]) == "" && TextOf([WavEnd]) == "" by {
      assert [WavBegin][..0] == [] && [WavEnd][..0] == [] && TextOf([]) + "" == "";
    }
    assert "" + TextOf(audio) == TextOf(audio) && TextOf(audio) + "" == TextOf(audio);
    assert d.n == |d.task.segments| ==> d.task.segments[..d.n] == d.task.segments;
    hide TextOf, TextsOf, AudioOf;
  }

  // ---------------------------------------------------------------- marks and stops

  predicate NoMark(wavs: seq<Wav>) {
    forall i | 0 <= i < |wavs| && wavs[i].WavData? :: wavs[i].mark == ""
  }

  lemma {:induction false} AudioHasNoMark(segments: seq<Segment>, n: nat)
    requires n <= |segments|
    ensures NoMark(AudioOf(segments, n))
  {
    if n > 0 {
      AudioHasNoMark(segments, n - 1);
      hide PiecesOf;
    }
  }

  lemma {:induction false} TranscriptsHaveNoMark(done: seq<Done>)
    requires AllDoneRight(done)
    ensures NoMark(Transcripts(done))
  {
    if done != [] {
      var d := done[|done| - 1];
      TranscriptsHaveNoMark(done[..|done| - 1]);
      AudioHasNoMark(d.task.segments, d.n);
      hide AudioOf;
    }
  }

  lemma PartialHasNoMark(gen: Gen)
    requires GenRight(gen)
    ensures NoMark(Partial(gen))
  {
    if !Silent(gen) {
      AudioHasNoMark(gen.task.segments, gen.n);
    }
    hide AudioOf, PiecesOf;
  }

  lemma {:induction false} NoMarkNoReport(wavs: seq<Wav>)
    requires NoMark(wavs)
    ensures forall i | 0 <= i < |Reports(wavs)| :: !Reports(wavs)[i].ReportMark?
  {
    if wavs != [] {
      NoMarkNoReport(wavs[..|wavs| - 1]);
    }
  }

  /** No index mark is ever reported, whatever marks tasks have. */
  lemma MarksAreNeverReported(run: seq<State>, steps: seq<Step>, i: nat)
    requires IsRun(run, steps) && i < |run|
    ensures forall r | r in run[i].reported :: !r.ReportMark?
  {
    var s := run[i];
    ReportsArePrefix(run, steps, i);
    TranscriptsHaveNoMark(s.done);
    PartialHasNoMark(s.gen);
    hide IsRun, Transcripts, Partial, Reports;
    var wavs := Transcripts(s.done) + Partial(s.gen);
    NoMarkNoReport(wavs);
    assert forall k | 0 <= k < |s.reported| :: s.reported[k] == Reports(wavs)[k];
  }

  /** The step that starts a task. */
  predicate Starts(s: State, step: Step) {
    step.GenStep? && s.gen.Popped?
  }

  /** Whether a stop came after the last start of a task. */
  ghost predicate StoppedSinceStart(run: seq<State>, steps: seq<Step>, i: nat)
    requires i <= |steps| < |run|
  {
    i > 0 && !Starts(run[i - 1], steps[i - 1]) && (steps[i - 1].Stop? || StoppedSinceStart(run, steps, i - 1))
  }

  lemma StepSetsLimit(s: State, step: Step)
    requires Enabled(s, step) && InTask(Do(s, step).gen)
    ensures if Starts(s, step) then Do(s, step).limit.None?
            else InTask(s.gen) && (Do(s, step).limit.Some? <==> step.Stop? || s.limit.Some?)
  {
    hide PiecesOf;
  }

  lemma {:induction false} LimitIsStop(run: seq<State>, steps: seq<Step>, i: nat)
    requires IsRun(run, steps) && i < |run| && InTask(run[i].gen)
    ensures run[i].limit.Some? <==> StoppedSinceStart(run, steps, i)
  {
    if i > 0 {
      StepSetsLimit(run[i - 1], steps[i - 1]);
      if !Starts(run[i - 1], steps[i - 1]) {
        LimitIsStop(run, steps, i - 1);
      }
    }
  }

  /** A task is bounded exactly by the stops that come after its start. One that comes while it is queued, or popped
      and not started, leaves no trace: all its segments are said. */
  lemma OnlyLaterStopsCount(run: seq<State>, steps: seq<Step>, i: nat)
    requires IsRun(run, steps) && i < |steps| && run[i].gen.Finishing? && steps[i].GenStep?
    ensures var s, t := run[i], run[i + 1];
            && t.done == s.done + [Done(s.gen.task, s.gen.n, s.limit)] && DoneRight(t.done[|s.done|])
            && (t.done[|s.done|].limit.Some? <==> StoppedSinceStart(run, steps, i))
            && (!StoppedSinceStart(run, steps, i) ==>
                  TextOf(Transcript(t.done[|s.done|])) == TextsOf(s.gen.task.segments))
  {
    RunKeeps(run, steps, i);
    RunKeeps(run, steps, i + 1);
    LimitIsStop(run, steps, i);
    var s, t := run[i], run[i + 1];
    hide InvTasks, InvPlay, Transcripts, Partial, Transcript, TextOf, TextsOf, StoppedSinceStart;
    TextOfTranscript(t.done[|s.done|]);
  }
}
