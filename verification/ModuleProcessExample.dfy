/** A message that arrives garbled, and one that arrives in spite of a wrong line. */
module ModuleProcessExample {
  import opened Bytes
  import opened Collections
  import opened DotFraming
  import opened ModuleReadlineSpec
  import opened ModuleReadline
  import opened ModuleReadlineLaws
  import opened ModuleReadlineExample
  import opened ModuleProcess

  const TEXT: seq<Byte> := FOUR + [LF, LF, 99] // "aaaa\n\nc"

  /** The reads bring "aa", "aa", "\n\nc", "\n" and ".\n"; `behind` is what the memory holds behind the fourth. */
  function Reads(behind: seq<Byte>): seq<Outcome> {
    [Two([])] + ([Two([])] + ([Ready(true, Gives(2, []))] + ([Ready(true, Gives(0, behind))] + [Two([])])))
  }

  const ENDING: seq<Byte> := [LF] + DOT_LINE

  // The states between the calls.

  function Begin(behind: seq<Byte>): Pipe {
    Pipe(Buf([], 0, 0, 0), FOUR + ([LF, LF, 99] + ENDING), Reads(behind))
  }

  function AfterFirst(behind: seq<Byte>): Pipe {
    Pipe(Buf(TEXT, 5, 8, 7), ENDING, [Ready(true, Gives(0, behind))] + [Two([])])
  }

  function AfterSecond(behind: seq<Byte>): Pipe {
    Pipe(Buf(TEXT, 6, 8, 7), ENDING, [Ready(true, Gives(0, behind))] + [Two([])])
  }

  const AFTER_STALE := Pipe(Buf(TEXT + [LF], 5, 8, 7), DOT_LINE, [Two([])])
  const AFTER_FOURTH := Pipe(Buf(TEXT + [LF], 6, 8, 7), DOT_LINE, [Two([])])
  const AFTER_FIFTH := Pipe(Buf([], 0, 8, 7), DOT_LINE, [Two([])])
  const AT_END := Pipe(Buf([], 0, 8, 7), [], [])

  lemma First(behind: seq<Byte>)
    ensures var c := Next(Begin(behind), true, false); c.got == Line(FIRST, FIRST) && c.after == AfterFirst(behind)
  {
    hide Next;
    FirstLineIsRead([LF, LF, 99], ENDING, Ready(true, Gives(2, [])), [Ready(true, Gives(0, behind))] + [Two([])],
                    false);
  }

  lemma Second(behind: seq<Byte>)
    ensures Good(AfterFirst(behind).buf)
    ensures var c := Next(AfterFirst(behind), true, false); c.got == Line([LF], [LF]) && c.after == AfterSecond(behind)
  {
    hide Next;
    var p := AfterFirst(behind);
    LinePending(p, false, 6);
    assert p.buf.seen[5..6] == [LF];
  }

  /** The newline behind the pending "c" is read; the scan from 0 meets the first newline of all. */
  lemma Third(behind: seq<Byte>)
    ensures Good(AfterSecond(behind).buf)
    ensures var c := Next(AfterSecond(behind), true, false);
            c.got == Stale([99, LF] + UntilNul(behind), [LF]) && c.after == AFTER_STALE
  {
    hide Next, Rounds, UntilNul;
    var p := AfterSecond(behind);
    NothingPending(p, false);
    assert MakeRoom(p.buf, true) == Room(true, false, p.buf);
    assert p.incoming == [LF] + DOT_LINE && p.script[1..] == [Two([])];
    BringsLine(p, p.buf, [LF], DOT_LINE, false, 5);
    var b := Buf(TEXT + [LF], 6, 8, 7);
    assert WithBytes(p.buf, [LF]) == b;
    assert Pending(b) == [99, LF] && b.seen[5..6] == [LF];
    UntilNulBehind(behind);
  }

  lemma UntilNulBehind(behind: seq<Byte>)
    ensures UntilNul([99, LF] + behind) == [99, LF] + UntilNul(behind)
  {
    var s: seq<Byte> := [99, LF] + behind;
    assert s[1..] == [LF] + behind && s[1..][1..] == behind;
  }

  lemma Fourth()
    ensures Good(AFTER_STALE.buf)
    ensures var c := Next(AFTER_STALE, true, false); c.got == Line([LF], [LF]) && c.after == AFTER_FOURTH
  {
    hide Next;
    LinePending(AFTER_STALE, false, 6);
    assert AFTER_STALE.buf.seen[5..6] == [LF];
  }

  lemma Fifth()
    ensures Good(AFTER_FOURTH.buf)
    ensures var c := Next(AFTER_FOURTH, true, false); c.got == Line([99, LF], [99, LF]) && c.after == AFTER_FIFTH
  {
    hide Next;
    LinePending(AFTER_FOURTH, false, 8);
    assert AFTER_FOURTH.buf.seen[6..8] == [99, LF];
  }

  lemma Sixth()
    ensures Good(AFTER_FIFTH.buf)
    ensures var c := Next(AFTER_FIFTH, true, false); c.got == Line(DOT_LINE, DOT_LINE) && c.after == AT_END
  {
    hide Next, Rounds;
    var p := AFTER_FIFTH;
    NothingPending(p, false);
    assert MakeRoom(p.buf, true) == Room(true, false, p.buf);
    assert p.incoming == DOT_LINE + [] && p.script[1..] == [];
    BringsLine(p, p.buf, DOT_LINE, [], false, 2);
    var b := Buf(DOT_LINE, 0, 8, 7);
    assert WithBytes(p.buf, DOT_LINE) == b && b.seen[0..2] == DOT_LINE;
  }

  /** A line that is not the dot line and not stuffed is added to what is collected. */
  lemma Adds(p: Pipe, text: seq<Byte>, nlines: nat, line: seq<Byte>)
    requires Good(p.buf) && LineOf(Next(p, true, false).got) == Some(line) && (line == [] || line[0] != DOT)
    ensures var c := Next(p, true, false);
            var all, g := Gather(p, false, text, nlines), Gather(c.after, false, text + line, nlines + 1);
            all.done == g.done && all.text == g.text && all.nlines == g.nlines && EndOf(all.calls) == EndOf(g.calls)
  {
    GatherStep(p, false, text, nlines);
    hide Gather, Next;
  }

  lemma Ends(p: Pipe, text: seq<Byte>, nlines: nat)
    requires Good(p.buf) && LineOf(Next(p, true, false).got) == Some(DOT_LINE)
    ensures var g := Gather(p, false, text, nlines);
            g.done && g.text == text && g.nlines == nlines && EndOf(g.calls) == Next(p, true, false).after
  {
    GatherStep(p, false, text, nlines);
    hide Gather, Next;
  }

  /** What is collected: behind "c" what the memory holds, and then the last two lines again. */
  function Collected(behind: seq<Byte>): seq<Byte> {
    [] + FIRST + [LF] + ([99, LF] + UntilNul(behind)) + [LF] + [99, LF]
  }

  lemma Garbled(behind: seq<Byte>)
    ensures var g := Gather(Begin(behind), false, [], 0);
            g.done && g.text == Collected(behind) && g.nlines == 5 && EndOf(g.calls) == AT_END
  {
    hide Next, Gather, UntilNul;
    var junk := [99, LF] + UntilNul(behind);
    First(behind);
    Adds(Begin(behind), [], 0, FIRST);
    Second(behind);
    Adds(AfterFirst(behind), [] + FIRST, 1, [LF]);
    Third(behind);
    Adds(AfterSecond(behind), [] + FIRST + [LF], 2, junk);
    Fourth();
    Adds(AFTER_STALE, [] + FIRST + [LF] + junk, 3, [LF]);
    Fifth();
    Adds(AFTER_FOURTH, [] + FIRST + [LF] + junk + [LF], 4, [99, LF]);
    Sixth();
    Ends(AFTER_FIFTH, Collected(behind), 5);
  }

  lemma {:induction false} NothingStuffed(t: seq<Byte>, atStart: bool)
    requires DOT !in t
    ensures Escaped(t, atStart) == t
  {
    if t != [] {
      assert t[0] in t;
      EscapedStep(t, atStart);
      hide Escaped;
      NothingStuffed(t[1..], t[0] == LF);
    }
  }

  lemma SentText()
    ensures Sent(TEXT) == FOUR + ([LF, LF, 99] + ENDING)
  {
    NothingStuffed(TEXT, true);
    hide Escaped;
  }

  /** What is spoken in its place. */
  function Spoken(behind: seq<Byte>): seq<Byte> {
    TEXT + [LF] + UntilNul(behind) + [LF, 99]
  }

  lemma SpokenIs(behind: seq<Byte>)
    ensures Answer(Collected(behind), 5, TextMessage) == Speak(Spoken(behind)) && Spoken(behind) != TEXT
  {
    var junk := UntilNul(behind);
    hide UntilNul;
    assert Collected(behind) == Spoken(behind) + [LF];
    assert Collected(behind)[..|Collected(behind)| - 1] == Spoken(behind);
    assert |Spoken(behind)| > |TEXT|;
  }

  /** The text "aaaa\n\nc", sent and read in pieces: with the scan index as the code sets it a longer text is spoken,
      whatever the memory holds behind the bytes read. */
  method SpeakGarbled(behind: seq<Byte>, limit: nat) returns (r: Reply)
    requires 2 * |Collected(behind)| <= limit
    ensures r == Speak(Spoken(behind)) && Spoken(behind) != TEXT
  {
    SentText();
    Garbled(behind);
    SpokenIs(behind);
    hide Gather, Sent, Answer, Spoken, Collected;
    var reader := new Reader(false);
    var input := new Input(Sent(TEXT), Reads(behind));
    assert reader.PipeOf(input) == Begin(behind);
    r := CmdSpeak(reader, input, TextMessage, limit);
  }

  // ---------------------------------------------------------------- a wrong line that does no harm

  const SHORT: seq<Byte> := FOUR + [LF, 98, 99] // "aaaa\nbc"

  /** Reads of two bytes. */
  const TWOS: seq<Outcome> := [Two([])] + ([Two([])] + ([Two([])] + ([Two([])] + [Two([])])))

  const SHORT_BEGIN := Pipe(Buf([], 0, 0, 0), FOUR + ([LF, 98] + ([99, LF] + DOT_LINE)), TWOS)
  const SHORT_FIRST := Pipe(Buf(FOUR + [LF, 98], 5, 8, 6), [99, LF] + DOT_LINE, [Two([])] + [Two([])])
  const SHORT_STALE := Pipe(Buf(SHORT + [LF], 5, 8, 6), DOT_LINE, [Two([])])
  const SHORT_THIRD := Pipe(Buf([], 0, 8, 6), DOT_LINE, [Two([])])
  const SHORT_END := Pipe(Buf([], 0, 8, 6), [], [])

  lemma ShortFirst()
    ensures var c := Next(SHORT_BEGIN, true, false); c.got == Line(FIRST, FIRST) && c.after == SHORT_FIRST
  {
    hide Next;
    FirstLineIsRead([LF, 98], [99, LF] + DOT_LINE, Two([]), [Two([])] + [Two([])], false);
  }

  /** The scan from 0 meets the newline right in front of the pending bytes. */
  lemma ShortStale()
    ensures Good(SHORT_FIRST.buf)
    ensures var c := Next(SHORT_FIRST, true, false); c.got == Stale([], []) && c.after == SHORT_STALE
  {
    hide Next, Rounds;
    var p := SHORT_FIRST;
    NothingPending(p, false);
    assert MakeRoom(p.buf, true) == Room(true, false, p.buf);
    assert p.incoming == [99, LF] + DOT_LINE && p.script[1..] == [Two([])];
    BringsLine(p, p.buf, [99, LF], DOT_LINE, false, 5);
    assert WithBytes(p.buf, [99, LF]) == Buf(SHORT + [LF], 5, 8, 6);
  }

  lemma ShortThird()
    ensures Good(SHORT_STALE.buf)
    ensures var c := Next(SHORT_STALE, true, false); c.got == Line([98, 99, LF], [98, 99, LF]) && c.after == SHORT_THIRD
  {
    hide Next, UntilNul;
    LinePending(SHORT_STALE, false, 8);
    assert SHORT_STALE.buf.seen[5..8] == [98, 99, LF];
  }

  lemma ShortFourth()
    ensures Good(SHORT_THIRD.buf)
    ensures var c := Next(SHORT_THIRD, true, false); c.got == Line(DOT_LINE, DOT_LINE) && c.after == SHORT_END
  {
    hide Next, Rounds;
    var p := SHORT_THIRD;
    NothingPending(p, false);
    assert MakeRoom(p.buf, true) == Room(true, false, p.buf);
    assert p.incoming == DOT_LINE + [] && p.script[1..] == [];
    BringsLine(p, p.buf, DOT_LINE, [], false, 2);
    var b := Buf(DOT_LINE, 0, 8, 6);
    assert WithBytes(p.buf, DOT_LINE) == b && b.seen[0..2] == DOT_LINE;
  }

  lemma ShortIsGathered()
    ensures var g := Gather(SHORT_BEGIN, false, [], 0); g.done && g.text == SHORT + [LF] && g.nlines == 3
  {
    hide Next, Gather;
    ShortFirst();
    Adds(SHORT_BEGIN, [], 0, FIRST);
    ShortStale();
    Adds(SHORT_FIRST, [] + FIRST, 1, []);
    ShortThird();
    Adds(SHORT_STALE, [] + FIRST + [], 2, [98, 99, LF]);
    ShortFourth();
    Ends(SHORT_THIRD, [] + FIRST + [] + [98, 99, LF], 3);
  }

  lemma ShortIsSent()
    ensures Sent(SHORT) == FOUR + ([LF, 98] + ([99, LF] + DOT_LINE))
  {
    NothingStuffed(SHORT, true);
    hide Escaped;
  }

  /** The text "aaaa\nbc" in reads of two bytes: the second call returns an empty line too many, and the text is spoken
      all the same. */
  method SpeakInSpite(limit: nat) returns (r: Reply)
    requires 2 * |SHORT + [LF]| <= limit
    ensures r == Speak(SHORT)
    ensures Next(Next(Pipe(Buf([], 0, 0, 0), Sent(SHORT), TWOS), true, false).after, true, false).got == Stale([], [])
  {
    ShortIsSent();
    ShortFirst();
    ShortStale();
    ShortIsGathered();
    hide Gather, Sent, Next;
    var reader := new Reader(false);
    var input := new Input(Sent(SHORT), TWOS);
    assert reader.PipeOf(input) == SHORT_BEGIN;
    assert (SHORT + [LF])[..|SHORT + [LF]| - 1] == SHORT;
    r := CmdSpeak(reader, input, TextMessage, limit);
  }
}
