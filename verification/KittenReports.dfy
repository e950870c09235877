/** What the listener of the Kitten worker gets: the tasks submitted, in order, as pieces of audio between BEGIN and
    END. */
module KittenReports {
  import opened Collections
  import opened KittenWorker

  // ---------------------------------------------------------------- what should be heard

  function Audio(pieces: seq<string>): (r: seq<Report>)
    ensures |r| == |pieces|
  {
    seq(|pieces|, i requires 0 <= i < |pieces| => ReportAudio(pieces[i]))
  }

  /** The pieces of the first n segments, of at most 399 characters each. */
  function Heard(segments: seq<Segment>, n: nat): seq<Report>
    requires n <= |segments|
  {
    if n == 0 then [] else Heard(segments, n - 1) + Audio(Split(segments[n - 1].text, 399))
  }

  /** A task of which n segments were generated. */
  function TaskHeard(segments: seq<Segment>, n: nat): seq<Report>
    requires n <= |segments|
  {
    [ReportBegin] + Heard(segments, n) + [ReportEnd]
  }

  function AllHeard(done: seq<Done>): seq<Report>
    requires AllDoneRight(done)
  {
    if done == [] then []
    else AllHeard(done[..|done| - 1]) + TaskHeard(done[|done| - 1].task.segments, done[|done| - 1].n)
  }

  /** At most this is heard of the current task before it is over. */
  function MayBeHeard(gen: Gen): seq<Report> {
    if Silent(gen) then [] else [ReportBegin] + Heard(gen.task.segments, |gen.task.segments|)
  }

  // ---------------------------------------------------------------- the reports of payloads

  lemma ReportsOfOne(wav: Wav)
    ensures Reports([wav]) == ReportsOf(wav)
  {
    assert [wav][..0] == [] && [] + ReportsOf(wav) == ReportsOf(wav);
  }

  lemma {:induction false} DataIsHeard(pieces: seq<string>)
    ensures Reports(DataOf(pieces)) == Audio(pieces)
  {
    if pieces != [] {
      var n := |pieces| - 1;
      DataIsHeard(pieces[..n]);
      assert DataOf(pieces)[..n] == DataOf(pieces[..n]);
      assert Audio(pieces) == Audio(pieces[..n]) + [ReportAudio(pieces[n])];
    }
  }

  lemma {:induction false} AudioIsHeard(segments: seq<Segment>, n: nat)
    requires n <= |segments|
    ensures Reports(AudioOf(segments, n)) == Heard(segments, n)
  {
    hide DataOf, Split, ReportsOf;
    if n > 0 {
      AudioIsHeard(segments, n - 1);
      DataIsHeard(PiecesOf(segments[n - 1]));
      ReportsOfBoth(AudioOf(segments, n - 1), DataOf(PiecesOf(segments[n - 1])));
    }
  }

  lemma TranscriptIsHeard(d: Done)
    requires DoneRight(d)
    ensures Reports(Transcript(d)) == TaskHeard(d.task.segments, d.n)
  {
    hide Reports, AudioOf, Heard;
    var audio := AudioOf(d.task.segments, d.n);
    AudioIsHeard(d.task.segments, d.n);
    ReportsOfOne(WavBegin);
    ReportsOfOne(WavEnd);
    ReportsOfBoth([WavBegin], audio);
    ReportsOfBoth([WavBegin] + audio, [WavEnd]);
  }

  lemma {:induction false} TranscriptsAreHeard(done: seq<Done>)
    requires AllDoneRight(done)
    ensures Reports(Transcripts(done)) == AllHeard(done)
  {
    if done != [] {
      var n := |done| - 1;
      TranscriptsAreHeard(done[..n]);
      TranscriptIsHeard(done[n]);
      ReportsOfBoth(Transcripts(done[..n]), Transcript(done[n]));
      hide Reports, Transcript, TaskHeard;
    }
  }

  // ---------------------------------------------------------------- a task that is not over

  lemma {:induction false} HeardGrows(segments: seq<Segment>, m: nat, n: nat)
    requires m <= n <= |segments|
    ensures Heard(segments, m) <= Heard(segments, n)
  {
    if m < n {
      HeardGrows(segments, m, n - 1);
      hide Split, Audio;
    }
  }

  lemma CutIsHeard(task: Task, n: nat, i: nat)
    requires GenRight(Cutting(task, n, i))
    ensures Reports(Partial(Cutting(task, n, i))) ==
            [ReportBegin] + Heard(task.segments, n) + Audio(Split(task.segments[n].text, 399)[..i])
  {
    hide Reports, AudioOf, DataOf, Heard, Audio, Split;
    var pieces := PiecesOf(task.segments[n]);
    AudioIsHeard(task.segments, n);
    DataIsHeard(pieces[..i]);
    ReportsOfOne(WavBegin);
    ReportsOfBoth([WavBegin], AudioOf(task.segments, n));
    ReportsOfBoth([WavBegin] + AudioOf(task.segments, n), DataOf(pieces[..i]));
  }

  lemma BetweenIsHeard(gen: Gen)
    requires GenRight(gen) && Between(gen)
    ensures Reports(Partial(gen)) == [ReportBegin] + Heard(gen.task.segments, gen.n)
  {
    hide Reports, AudioOf, Heard;
    AudioIsHeard(gen.task.segments, gen.n);
    ReportsOfOne(WavBegin);
    ReportsOfBoth([WavBegin], AudioOf(gen.task.segments, gen.n));
  }

  lemma PrefixBehind(front: seq<Report>, a: seq<Report>, b: seq<Report>)
    requires a <= b
    ensures front + a <= front + b
  {
  }

  lemma AudioPrefix(pieces: seq<string>, i: nat)
    requires i <= |pieces|
    ensures Audio(pieces[..i]) <= Audio(pieces)
  {
  }

  lemma PartialIsHeard(gen: Gen)
    requires GenRight(gen)
    ensures Reports(Partial(gen)) <= MayBeHeard(gen)
  {
    hide Reports, Partial, Heard, Audio, Split;
    if gen.Cutting? {
      var segments, pieces := gen.task.segments, Split(gen.task.segments[gen.n].text, 399);
      CutIsHeard(gen.task, gen.n, gen.i);
      AudioPrefix(pieces, gen.i);
      HeardStep(segments, gen.n);
      HeardGrows(segments, gen.n + 1, |segments|);
      PrefixBehind(Heard(segments, gen.n), Audio(pieces[..gen.i]), Audio(pieces));
      PrefixBehind([ReportBegin], Heard(segments, gen.n + 1), Heard(segments, |segments|));
      PrefixBehind([ReportBegin], Heard(segments, gen.n) + Audio(pieces[..gen.i]), Heard(segments, gen.n + 1));
      Reassociate([ReportBegin], Heard(segments, gen.n), Audio(pieces[..gen.i]));
    } else if Between(gen) {
      BetweenIsHeard(gen);
      HeardGrows(gen.task.segments, gen.n, |gen.task.segments|);
      PrefixBehind([ReportBegin], Heard(gen.task.segments, gen.n), Heard(gen.task.segments, |gen.task.segments|));
    } else {
      SilentIsUnheard(gen);
    }
  }

  lemma HeardStep(segments: seq<Segment>, n: nat)
    requires n < |segments|
    ensures Heard(segments, n + 1) == Heard(segments, n) + Audio(Split(segments[n].text, 399))
  {
  }

  lemma SilentIsUnheard(gen: Gen)
    requires GenRight(gen) && Silent(gen)
    ensures Reports(Partial(gen)) == []
  {
  }

  // ---------------------------------------------------------------- what is heard

  /** Of every task that is over BEGIN, the pieces of its first segments, END, in the order of submission; then at most
      BEGIN and pieces of the current one: what is reported is a front part of that, and, when nothing is queued, in
      hand or being generated, all of it. */
  lemma HeardInOrder(run: seq<State>, steps: seq<Step>, i: nat)
    requires IsRun(run, steps) && i < |run|
    ensures var s := run[i]; AllDoneRight(s.done) && s.submitted == TasksOf(s.done) + CurrentTask(s.gen) + s.messages
    ensures var s := run[i]; s.reported <= AllHeard(s.done) + MayBeHeard(s.gen)
    ensures var s := run[i]; s.wavs == [] && s.play.Listening? && Silent(s.gen) ==> s.reported == AllHeard(s.done)
  {
    ReportsArePrefix(run, steps, i);
    hide IsRun;
    var s := run[i];
    TranscriptsAreHeard(s.done);
    PartialIsHeard(s.gen);
    ReportsOfBoth(Transcripts(s.done), Partial(s.gen));
    if Silent(s.gen) {
      SilentIsUnheard(s.gen);
    }
    assert Reports([]) == [];
    hide Reports, Transcripts, Partial, AllHeard, MayBeHeard;
    PrefixBehind(AllHeard(s.done), Reports(Partial(s.gen)), MayBeHeard(s.gen));
    assert s.wavs == [] && s.play.Listening? ==> Hand(s.play) + s.wavs == [];
  }

  /** The tasks of the submissions among some steps. */
  function Submissions(steps: seq<Step>): seq<Task> {
    if steps == [] then []
    else
      var n := |steps| - 1;
      Submissions(steps[..n]) + if steps[n].Submit? then [steps[n].task] else []
  }

  /** The tasks over, the current one and the queued ones are those submitted. */
  lemma {:induction false} SubmittedIsSubmissions(run: seq<State>, steps: seq<Step>, i: nat)
    requires IsRun(run, steps) && i < |run|
    ensures run[i].submitted == Submissions(steps[..i])
  {
    if i > 0 {
      SubmittedIsSubmissions(run, steps, i - 1);
      assert steps[..i][..i - 1] == steps[..i - 1];
      hide PiecesOf;
    }
  }

  // ---------------------------------------------------------------- the words that are heard

  /** The text of the audio among some reports. */
  function Words(reports: seq<Report>): string {
    if reports == [] then ""
    else Words(reports[..|reports| - 1]) +
         if reports[|reports| - 1].ReportAudio? then reports[|reports| - 1].piece else ""
  }

  lemma {:induction false} WordsOfBoth(a: seq<Report>, b: seq<Report>)
    ensures Words(a + b) == Words(a) + Words(b)
  {
    if b == [] {
      assert a + b == a && Words(a) + "" == Words(a);
    } else {
      var n := |b| - 1;
      WordsOfBoth(a, b[..n]);
      assert (a + b)[..|a + b| - 1] == a + b[..n];
      Reassociate(Words(a), Words(b[..n]), if b[n].ReportAudio? then b[n].piece else "");
    }
  }

  lemma {:induction false} WordsOfAudio(pieces: seq<string>)
    ensures Words(Audio(pieces)) == Concat(pieces)
  {
    if pieces == [] {
      assert Audio(pieces) == [];
    } else {
      var first := [ReportAudio(pieces[0])];
      assert Audio(pieces) == first + Audio(pieces[1..]);
      WordsOfAudio(pieces[1..]);
      WordsOfBoth(first, Audio(pieces[1..]));
      assert Words(first) == pieces[0] by {
        assert first[..0] == [] && "" + pieces[0] == pieces[0];
      }
    }
  }

  lemma {:induction false} WordsOfHeard(segments: seq<Segment>, n: nat)
    requires n <= |segments|
    ensures Words(Heard(segments, n)) == TextsOf(segments[..n])
  {
    if n > 0 {
      WordsOfHeard(segments, n - 1);
      WordsOfBoth(Heard(segments, n - 1), Audio(Split(segments[n - 1].text, 399)));
      WordsOfAudio(Split(segments[n - 1].text, 399));
      PiecesOfText(segments[n - 1].text, 399);
      assert segments[..n][..n - 1] == segments[..n - 1];
      hide Split, Audio, Words;
    }
  }

  /** The words of a task that is over and heard are the text of its first segments, of all of them if no stop came. */
  lemma WordsOfTask(d: Done)
    requires DoneRight(d)
    ensures Words(TaskHeard(d.task.segments, d.n)) == TextsOf(d.task.segments[..d.n])
    ensures d.limit.None? ==> Words(TaskHeard(d.task.segments, d.n)) == TextsOf(d.task.segments)
  {
    var heard := Heard(d.task.segments, d.n);
    WordsOfHeard(d.task.segments, d.n);
    WordsOfBoth([ReportBegin], heard);
    WordsOfBoth([ReportBegin] + heard, [ReportEnd]);
    assert Words([ReportBegin]) == "" && Words([ReportEnd]) == "" by {
      assert [ReportBegin][..0] == [] && [ReportEnd][..0] == [] && Words([]) + "" == "";
    }
    assert "" + Words(heard) == Words(heard) && Words(heard) + "" == Words(heard);
    assert d.n == |d.task.segments| ==> d.task.segments[..d.n] == d.task.segments;
    hide Words, TextsOf, Heard;
  }

  // ---------------------------------------------------------------- how soon a stop ends a task

  /** How many segments of the task are generated, being generated or about to be. */
  function Begun(gen: Gen): nat {
    match gen
    case Started(_) => 1
    case AtLoop(_, n) => n + 1
    case Cutting(_, n, _) => n + 1
    case Checking(_, n) => n
    case Finishing(_, n) => n
    case _ => 0
  }

  lemma GenEndsSoon(s: State)
    requires GenRight(s.gen) && InTask(s.gen) && s.stop && InTask(DoGen(s).gen)
    ensures DoGen(s).stop && Begun(DoGen(s).gen) <= Begun(s.gen)
  {
    hide PiecesOf;
  }

  lemma StepEndsSoon(s: State, step: Step)
    requires Enabled(s, step) && GenRight(s.gen) && InTask(s.gen) && (s.stop || step.Stop?) && InTask(Do(s, step).gen)
    ensures Do(s, step).stop && Begun(Do(s, step).gen) <= Begun(s.gen)
  {
    hide DoGen;
    if step.GenStep? {
      GenEndsSoon(s);
    }
  }

  lemma RunIsRight(run: seq<State>, steps: seq<Step>, i: nat)
    requires IsRun(run, steps) && i < |run|
    ensures GenRight(run[i].gen)
  {
    RunKeeps(run, steps, i);
  }

  /** After a stop that comes in a task no segment is generated that was not begun or about to begin. */
  lemma {:induction false} StopEndsSoon(run: seq<State>, steps: seq<Step>, i: nat, j: nat)
    requires IsRun(run, steps) && i < j < |run| && steps[i].Stop? && forall k | i <= k <= j :: InTask(run[k].gen)
    ensures run[j].stop && Begun(run[j].gen) <= Begun(run[i].gen)
  {
    hide Do, GenRight, Begun, InTask;
    RunIsRight(run, steps, j - 1);
    if i + 1 < j {
      StopEndsSoon(run, steps, i, j - 1);
    }
    assert run[j] == Do(run[j - 1], steps[j - 1]) && InTask(run[j].gen) && InTask(run[j - 1].gen);
    StepEndsSoon(run[j - 1], steps[j - 1]);
  }
}
