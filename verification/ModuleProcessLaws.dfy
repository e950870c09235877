/** Which messages arrive as they were sent: exactly those for which the line buffer makes no returned line pending
    again. */
module ModuleProcessLaws {
  import opened Collections
  import opened Bytes
  import opened DotFraming
  import opened ModuleReadlineSpec
  import opened ModuleReadline
  import opened ModuleReadlineLaws
  import opened ModuleReadlineBehind
  import opened ModuleProcess

  // ---------------------------------------------------------------- right and wrong messages

  lemma GatherStarts(p: Pipe, repaired: bool, text: seq<Byte>, nlines: nat)
    requires Good(p.buf)
    ensures Gather(p, repaired, text, nlines).calls[0] == Next(p, true, repaired)
  {
  }

  /** Whether some call made returned bytes pending again. */
  predicate AnyRepeat(calls: seq<Call>) {
    exists i :: 0 <= i < |calls| && Repeats(calls[i].got)
  }

  lemma RepeatFirst(c: Call, rest: seq<Call>)
    ensures AnyRepeat([c] + rest) <==> Repeats(c.got) || AnyRepeat(rest)
  {
    var calls := [c] + rest;
    assert Repeats(c.got) ==> Repeats(calls[0].got);
    if AnyRepeat(rest) {
      var i :| 0 <= i < |rest| && Repeats(rest[i].got);
      assert calls[i + 1] == rest[i];
    }
  }

  lemma RepeatIsStale(calls: seq<Call>)
    ensures AnyRepeat(calls) ==> AnyStale(calls)
  {
  }

  /** The first call of a message and the others. */
  lemma GatherSplits(p: Pipe, repaired: bool, text: seq<Byte>, nlines: nat)
    requires Good(p.buf)
    ensures var c, all := Next(p, true, repaired), Gather(p, repaired, text, nlines);
            if c.got.NoLine? || LineOf(c.got).value == DOT_LINE then
              && (AnyRepeat(all.calls) <==> Repeats(c.got)) && (AnyStale(all.calls) <==> c.got.Stale?)
              && EndOf(all.calls) == c.after
            else
              var g := Gather(c.after, repaired, text + Unstuffed(LineOf(c.got).value), nlines + 1);
              && (AnyRepeat(all.calls) <==> Repeats(c.got) || AnyRepeat(g.calls))
              && (AnyStale(all.calls) <==> c.got.Stale? || AnyStale(g.calls))
              && EndOf(all.calls) == EndOf(g.calls)
  {
    GatherStep(p, repaired, text, nlines);
    hide Next, Gather, Unstuffed, AnyRepeat, AnyStale, Repeats;
    var c := Next(p, true, repaired);
    assert !AnyRepeat([]) && !AnyStale([]) by {
      NoCalls();
    }
    assert [c] + [] == [c];
    RepeatFirst(c, []);
    StaleFirst(c, []);
    if !c.got.NoLine? && LineOf(c.got).value != DOT_LINE {
      var g := Gather(c.after, repaired, text + Unstuffed(LineOf(c.got).value), nlines + 1);
      RepeatFirst(c, g.calls);
      StaleFirst(c, g.calls);
    }
  }

  lemma NoCalls()
    ensures !AnyRepeat([]) && !AnyStale([])
  {
  }

  /** What a call gives while no returned line comes again: nothing, the next line, or an empty one too many. */
  lemma NextOrEmpty(p: Pipe, repaired: bool)
    requires Good(p.buf) && !Repeats(Next(p, true, repaired).got)
    ensures var c := Next(p, true, repaired);
            match c.got
            case NoLine => true
            case Line(line, whole) => IsLine(whole) && line == UntilNul(whole) && Ahead(p) == whole + Ahead(c.after)
            case Stale(line, _) => line == [] && Ahead(c.after) == Ahead(p)
  {
    NextIs(p, true, repaired);
    hide Next, UntilNul, IsLine, Good, Ahead;
    var got := Next(p, true, repaired).got;
    assert got.Stale? ==> [] + Ahead(p) == Ahead(p);
  }

  /** If no returned line comes again the message is the next one of the stream, whatever the reads hand over, and what
      follows it stays; with no wrong line at all its lines are counted right; on a steady descriptor it is gathered. */
  lemma {:induction false} GatherIsReceived(p: Pipe, repaired: bool, text: seq<Byte>, nlines: nat)
    requires Good(p.buf) && !AnyRepeat(Gather(p, repaired, text, nlines).calls)
    ensures var g := Gather(p, repaired, text, nlines); Good(EndOf(g.calls).buf)
    ensures var g, b := Gather(p, repaired, text, nlines), Received(Ahead(p), text, nlines);
            g.done ==>
              && b.Some? && g.text == b.value.text && Ahead(EndOf(g.calls)) == b.value.rest
              && (!AnyStale(g.calls) ==> g.nlines == b.value.nlines)
    ensures Steady(p) && Received(Ahead(p), text, nlines).Some? ==> Gather(p, repaired, text, nlines).done
    decreases |p.incoming|, |Ahead(p)|
  {
    hide Next, Gather, Good, Ahead, Steady, Received, Unstuffed, AnyStale, AnyRepeat, UntilNul, IsLine;
    var c := Next(p, true, repaired);
    NextDecreases(p, true, repaired);
    GatherStep(p, repaired, text, nlines);
    GatherSplits(p, repaired, text, nlines);
    NextOrEmpty(p, repaired);
    ReceivedNeedsLine(Ahead(p), text, nlines);
    if LF in Ahead(p) && Steady(p) {
      SteadyNext(p, true, repaired);
    }
    match c.got
    case NoLine =>
    case Line(line, whole) =>
      ReceivedStep(whole, Ahead(c.after), text, nlines);
      if line != DOT_LINE {
        GatherIsReceived(c.after, repaired, text + Unstuffed(line), nlines + 1);
      }
    case Stale(_, _) =>
      NothingAdded(text);
      GatherIsReceived(c.after, repaired, text + Unstuffed([]), nlines + 1);
      ReceivedFrom(Ahead(p), text, nlines);
      ReceivedFrom(Ahead(p), text, nlines + 1);
  }

  lemma NothingAdded(text: seq<Byte>)
    ensures text + Unstuffed([]) == text && [] != DOT_LINE
  {
  }

  lemma {:induction false} GatherIsStaleRight(p: Pipe, repaired: bool, text: seq<Byte>, nlines: nat, i: nat)
    requires Good(p.buf) && i < |Gather(p, repaired, text, nlines).calls|
    ensures var c := Gather(p, repaired, text, nlines).calls[i]; Good(c.before.buf) && StaleRight(c, repaired)
    decreases |p.incoming|, |Ahead(p)|
  {
    hide Next, Gather, Good, Ahead, StaleRight, Unstuffed;
    var c := Next(p, true, repaired);
    NextDecreases(p, true, repaired);
    GatherStep(p, repaired, text, nlines);
    StaleNext(p, true, repaired);
    if i > 0 {
      GatherIsStaleRight(c.after, repaired, text + Unstuffed(LineOf(c.got).value), nlines + 1, i - 1);
    }
  }

  // ---------------------------------------------------------------- what repeated lines do

  /** A message followed by `tail` is coming, without NUL in it, and what stands in front of the pending bytes are lines
      of it. */
  ghost predicate Coming(p: Pipe, tail: seq<Byte>)
    requires Good(p.buf)
  {
    && Clean(Behind(p.buf))
    && var s := Ahead(p); var b := Received(s, [], 0);
       b.Some? && b.value.rest == tail && |tail| <= |s| && 0 !in s[..|s| - |tail|]
  }

  /** The next line of a message that is coming. */
  lemma LineComes(whole: seq<Byte>, s: seq<Byte>, tail: seq<Byte>)
    requires IsLine(whole) && Received(whole + s, [], 0).Some? && Received(whole + s, [], 0).value.rest == tail
    requires |tail| <= |whole + s| && 0 !in (whole + s)[..|whole + s| - |tail|]
    ensures UntilNul(whole) != DOT_LINE ==>
              && 0 !in whole && whole != DOT_LINE && UntilNul(whole) == whole
              && Received(s, [], 0).Some? && Received(s, [], 0).value.rest == tail
              && |tail| <= |s| && 0 !in s[..|s| - |tail|]
  {
    hide Received, UntilNul, IsLine, Unstuffed;
    var all := whole + s;
    ReceivedStep(whole, s, [], 0);
    ReceivedFrom(s, [] + Unstuffed(UntilNul(whole)), 1);
    if UntilNul(whole) != DOT_LINE {
      var front := all[..|all| - |tail|];
      assert forall i | 0 <= i < |whole| :: whole[i] == front[i];
      assert forall i | 0 <= i < |s| - |tail| :: s[i] == front[|whole| + i];
    }
  }

  lemma LineKeepsComing(p: Pipe, repaired: bool, tail: seq<Byte>)
    requires Good(p.buf) && Coming(p, tail)
    ensures var c := Next(p, true, repaired);
            c.got.Line? && c.got.line != DOT_LINE ==> Coming(c.after, tail) && c.got.line == c.got.whole
  {
    NextIs(p, true, repaired);
    NextBehind(p, true, repaired);
    hide Next, Good, Ahead, Received, UntilNul, IsLine, Clean;
    var c := Next(p, true, repaired);
    if c.got.Line? && c.got.line != DOT_LINE {
      LineComes(c.got.whole, Ahead(c.after), tail);
      CleanLine(c.got.whole);
      BehindIsWhole(p.buf);
      CleanJoin(Behind(p.buf), c.got.whole);
      NothingIsClean();
      hide Behind;
    }
  }

  lemma BehindIsWhole(b: Buf)
    requires Good(b)
    ensures Whole(Behind(b))
  {
  }

  lemma NothingIsClean()
    ensures Clean([])
  {
  }

  lemma LinesAreWhole(first: seq<Byte>, back: seq<Byte>)
    requires IsLine(first) && Whole(first + back)
    ensures Whole(first) && Whole(back)
  {
    assert back != [] ==> (first + back)[|first + back| - 1] == back[|back| - 1];
  }

  lemma NulFreeFront(back: seq<Byte>, s: seq<Byte>, tail: seq<Byte>)
    requires 0 !in back && |tail| <= |s| && 0 !in s[..|s| - |tail|]
    ensures 0 !in (back + s)[..|back + s| - |tail|]
  {
    assert (back + s)[..|back + s| - |tail|] == back + s[..|s| - |tail|];
  }

  /** A stale newline adds lines to what is coming. */
  lemma StaleKeepsComing(p: Pipe, repaired: bool, tail: seq<Byte>)
    requires Good(p.buf) && Coming(p, tail)
    ensures var c := Next(p, true, repaired);
            c.got.Stale? ==>
              && Coming(c.after, tail) && Ahead(c.after) == c.got.back + Ahead(p)
              && Clean(c.got.back) && Whole(c.got.back)
  {
    NextIs(p, true, repaired);
    NextBehind(p, true, repaired);
    BehindIsWhole(p.buf);
    hide Next, Good, Ahead, Received, UntilNul, IsLine, Clean, Whole, Behind;
    var c := Next(p, true, repaired);
    if c.got.Stale? {
      var first, back := Behind(c.after.buf), c.got.back;
      LinesAreWhole(first, back);
      CleanSplit(first, back);
      CleanIsNoDotLine(back);
      ReceivedAgain(back, Ahead(p), [], 0);
      NulFreeFront(back, Ahead(p), tail);
    }
  }

  /** Where the message is collected, with what follows it left over, the text is at least as long as it should be and
      the lines are at least as many; longer if returned lines came again, and more if any line was wrong. */
  ghost predicate Gains(g: Gathered, b: Option<Body>, tail: seq<Byte>)
    requires g.calls != [] && (g.done ==> Good(EndOf(g.calls).buf))
  {
    b.Some?
    && (g.done && Ahead(EndOf(g.calls)) == tail ==>
          && |g.text| >= |b.value.text| && g.nlines >= b.value.nlines
          && (AnyRepeat(g.calls) ==> |g.text| > |b.value.text|)
          && (AnyStale(g.calls) ==> g.nlines > b.value.nlines))
  }

  lemma {:induction false} GatherEndsGood(p: Pipe, repaired: bool, text: seq<Byte>, nlines: nat)
    requires Good(p.buf)
    ensures var g := Gather(p, repaired, text, nlines); Good(EndOf(g.calls).buf)
    decreases |p.incoming|, |Ahead(p)|
  {
    hide Next, Gather, Good, Ahead, Unstuffed, AnyRepeat, AnyStale;
    var c := Next(p, true, repaired);
    NextDecreases(p, true, repaired);
    GatherSplits(p, repaired, text, nlines);
    if !c.got.NoLine? && LineOf(c.got).value != DOT_LINE {
      GatherEndsGood(c.after, repaired, text + Unstuffed(LineOf(c.got).value), nlines + 1);
    }
  }

  lemma {:induction false} GatherGains(p: Pipe, repaired: bool, text: seq<Byte>, nlines: nat, tail: seq<Byte>)
    requires Good(p.buf) && Coming(p, tail)
    ensures var g := Gather(p, repaired, text, nlines);
            Good(EndOf(g.calls).buf) && Gains(g, Received(Ahead(p), text, nlines), tail)
    decreases |p.incoming|, |Ahead(p)|
  {
    hide Next, Gather, Good, Ahead, Received, Unstuffed, AnyStale, AnyRepeat, UntilNul, IsLine, Clean, Whole, Behind;
    var c := Next(p, true, repaired);
    NextIs(p, true, repaired);
    NextDecreases(p, true, repaired);
    GatherStep(p, repaired, text, nlines);
    GatherSplits(p, repaired, text, nlines);
    ReceivedFrom(Ahead(p), text, nlines);
    LineKeepsComing(p, repaired, tail);
    StaleKeepsComing(p, repaired, tail);
    hide Coming;
    match c.got
    case NoLine =>
    case Line(line, whole) =>
      ReceivedStep(whole, Ahead(c.after), text, nlines);
      if line != DOT_LINE {
        GatherGains(c.after, repaired, text + Unstuffed(line), nlines + 1, tail);
      }
    case Stale(line, back) =>
      if line != DOT_LINE {
        var more := text + Unstuffed(line);
        ReceivedFrom(Ahead(p), more, nlines + 1);
        ReceivedAgain(back, Ahead(p), more, nlines + 1);
        GatherGains(c.after, repaired, more, nlines + 1, tail);
      }
  }

  /** Some call returns a wrong line exactly if the scan index set to 0 is in force and some call that collects the
      message begins with a stale newline in reach and gets bytes. */
  lemma WrongLinesExactly(p: Pipe, repaired: bool)
    requires Good(p.buf)
    ensures var calls := Gather(p, repaired, [], 0).calls;
            && (forall i | 0 <= i < |calls| :: Good(calls[i].before.buf))
            && (AnyStale(calls) <==>
                exists i :: 0 <= i < |calls| && !repaired && StaleRisk(calls[i].before.buf)
                            && |calls[i].after.incoming| < |calls[i].before.incoming|)
  {
    var calls := Gather(p, repaired, [], 0).calls;
    hide Gather, StaleRisk, Good;
    forall i | 0 <= i < |calls|
      ensures Good(calls[i].before.buf) && StaleRight(calls[i], repaired)
    {
      GatherIsStaleRight(p, repaired, [], 0, i);
    }
    if AnyStale(calls) {
      var i :| 0 <= i < |calls| && calls[i].got.Stale?;
      assert StaleRight(calls[i], repaired);
    }
  }

  /** A call makes returned bytes pending again exactly in this case. */
  predicate RepeatRight(c: Call, repaired: bool)
    requires Good(c.before.buf)
  {
    Repeats(c.got) <==> !repaired && RepeatRisk(c.before.buf) && |c.after.incoming| < |c.before.incoming|
  }

  lemma {:induction false} GatherIsRepeatRight(p: Pipe, repaired: bool, text: seq<Byte>, nlines: nat, i: nat)
    requires Good(p.buf) && i < |Gather(p, repaired, text, nlines).calls|
    ensures var c := Gather(p, repaired, text, nlines).calls[i]; Good(c.before.buf) && RepeatRight(c, repaired)
    decreases |p.incoming|, |Ahead(p)|
  {
    hide Next, Gather, Good, Ahead, Repeats, RepeatRisk, Unstuffed;
    var c := Next(p, true, repaired);
    NextDecreases(p, true, repaired);
    GatherStep(p, repaired, text, nlines);
    RepeatsExactly(p, true, repaired);
    if i > 0 {
      GatherIsRepeatRight(c.after, repaired, text + Unstuffed(LineOf(c.got).value), nlines + 1, i - 1);
    }
  }

  /** Returned lines come again exactly if the scan index set to 0 is in force and some call that collects the message
      begins with two lines still in front of pending bytes without a newline, with room behind them, and gets bytes. */
  lemma RepeatedLinesExactly(p: Pipe, repaired: bool)
    requires Good(p.buf)
    ensures var calls := Gather(p, repaired, [], 0).calls;
            && (forall i | 0 <= i < |calls| :: Good(calls[i].before.buf))
            && (AnyRepeat(calls) <==>
                exists i :: 0 <= i < |calls| && !repaired && RepeatRisk(calls[i].before.buf)
                            && |calls[i].after.incoming| < |calls[i].before.incoming|)
  {
    var calls := Gather(p, repaired, [], 0).calls;
    hide Gather, RepeatRisk, Good, Repeats;
    forall i | 0 <= i < |calls|
      ensures Good(calls[i].before.buf) && RepeatRight(calls[i], repaired)
    {
      GatherIsRepeatRight(p, repaired, [], 0, i);
    }
    if AnyRepeat(calls) {
      var i :| 0 <= i < |calls| && Repeats(calls[i].got);
      assert RepeatRight(calls[i], repaired);
    }
  }

  /** No read ended inside a line behind a returned one. */
  predicate ReadsAligned(calls: seq<Call>) {
    forall i | 0 <= i < |calls| :: AllAligned(calls[i].chunks)
  }

  /** then no call returns a wrong line. */
  lemma {:induction false} AlignedIsRight(p: Pipe, repaired: bool, text: seq<Byte>, nlines: nat)
    requires Good(p.buf) && AtLineStart(p.buf) && ReadsAligned(Gather(p, repaired, text, nlines).calls)
    ensures !AnyStale(Gather(p, repaired, text, nlines).calls)
    decreases |p.incoming|, |Ahead(p)|
  {
    hide Next, Gather, Unstuffed, AllAligned, AtLineStart;
    var c := Next(p, true, repaired);
    NextDecreases(p, true, repaired);
    GatherStep(p, repaired, text, nlines);
    GatherStarts(p, repaired, text, nlines);
    AlignedNext(p, true, repaired);
    if !c.got.NoLine? && LineOf(c.got).value != DOT_LINE {
      var g := Gather(c.after, repaired, text + Unstuffed(LineOf(c.got).value), nlines + 1);
      assert forall i | 0 <= i < |g.calls| :: ([c] + g.calls)[i + 1] == g.calls[i];
      AlignedIsRight(c.after, repaired, text + Unstuffed(LineOf(c.got).value), nlines + 1);
    }
  }

  /** Reads of single bytes never end inside a line behind a returned one. */
  lemma {:induction false} SingleBytesAreAligned(p: Pipe, repaired: bool, text: seq<Byte>, nlines: nat)
    requires Good(p.buf) && OneAtATime(p.script)
    ensures ReadsAligned(Gather(p, repaired, text, nlines).calls)
    decreases |p.incoming|, |Ahead(p)|
  {
    hide Next, Gather, Unstuffed, AllAligned;
    var c := Next(p, true, repaired);
    NextDecreases(p, true, repaired);
    GatherStep(p, repaired, text, nlines);
    OneAtATimeNext(p, true, repaired);
    if !c.got.NoLine? && LineOf(c.got).value != DOT_LINE {
      SingleBytesAreAligned(c.after, repaired, text + Unstuffed(LineOf(c.got).value), nlines + 1);
    }
  }

  // ---------------------------------------------------------------- end to end

  lemma {:induction false} EscapedIsSpace(t: seq<Byte>)
    ensures Escaped(t, true) == SPACE <==> t == SPACE
  {
    if t != [] {
      EscapedStep(t, true);
      if |t| > 1 {
        EscapedStep(t[1..], t[0] == LF);
      }
    }
  }

  lemma SpaceWordIsPlain()
    ensures Escaped(SPACE_WORD, true) == SPACE_WORD
  {
    EscapedSegment(SPACE_WORD, true);
  }

  /** What a message text is when it travels: a lone space becomes a word. */
  function OnTheWire(t: seq<Byte>): seq<Byte> {
    if t == SPACE then SPACE_WORD else t
  }

  /** What travels for a text is the wire form of the text, or of the word for a lone space. */
  lemma SentIsWire(t: seq<Byte>, tail: seq<Byte>)
    ensures Sent(t) + tail == Wire(OnTheWire(t), tail)
    ensures 0 !in t ==> 0 !in OnTheWire(t)
  {
    EscapedIsSpace(t);
    SpaceWordIsPlain();
    hide Escaped;
  }

  /** Any text without NUL is collected as it was sent, with a newline behind it; what follows stays. */
  lemma SentIsReceived(t: seq<Byte>, tail: seq<Byte>)
    requires 0 !in t
    ensures Received(Sent(t) + tail, [], 0) == Some(Body(OnTheWire(t) + [LF], LineCount(OnTheWire(t)), tail))
  {
    hide *;
    SentIsWire(t, tail);
    var u := OnTheWire(t);
    EscapedArrives(u, [], 0, tail);
    assert [] + u + [LF] == u + [LF];
  }

  /** The answer due to a text: that to the text received as it was sent. */
  function Due(t: seq<Byte>, msgtype: MessageType): Reply {
    Answer(OnTheWire(t) + [LF], LineCount(OnTheWire(t)), msgtype)
  }

  /** What the module makes of a received text: a text is spoken unchanged, unless it was empty or a lone space; a key
      or character must be on one line, and the word for a space is read back. */
  lemma AnswerToSent(t: seq<Byte>, msgtype: MessageType)
    requires 0 !in t
    ensures var a := Due(t, msgtype);
            && (a == CantSpeak <==> t == [])
            && (msgtype.TextMessage? && t != [] ==> a == Speak(OnTheWire(t)))
            && (!msgtype.TextMessage? && t != [] ==> (a == TooManyLines <==> LF in t))
            && (msgtype.SoundIcon? && t != [] && LF !in t ==> a == Speak(OnTheWire(t)))
            && ((msgtype.KeyMessage? || msgtype.CharMessage?) && t != [] && LF !in t ==>
                  a == Speak(if t == SPACE_WORD then SPACE else t))
  {
    LineCountIsOne(OnTheWire(t));
    var text := OnTheWire(t) + [LF];
    assert text[..|text| - 1] == OnTheWire(t);
  }

  lemma {:induction false} LineCountIsOne(t: seq<Byte>)
    ensures LineCount(t) >= 1 && (LineCount(t) > 1 <==> LF in t)
  {
    if t != [] {
      LineCountIsOne(t[1..]);
    }
  }

  lemma OnTheWireIsLong(t: seq<Byte>)
    ensures |t| <= |OnTheWire(t)| && (t == [] <==> OnTheWire(t) == []) && (LF !in t ==> LF !in OnTheWire(t))
  {
  }

  /** With the text and the number of lines received as they were sent the due answer is given; for a text message, or
      an empty one, the text is enough. */
  lemma RightAnswer(t: seq<Byte>, msgtype: MessageType, text: seq<Byte>, nlines: nat)
    requires text == OnTheWire(t) + [LF]
    requires nlines == LineCount(OnTheWire(t)) || msgtype.TextMessage? || t == []
    ensures Answer(text, nlines, msgtype) == Due(t, msgtype)
  {
    OnTheWireIsLong(t);
  }

  /** A longer text never gets the answer due to a text message or an empty one. */
  lemma LongerIsWrong(t: seq<Byte>, msgtype: MessageType, text: seq<Byte>, nlines: nat)
    requires |text| > |OnTheWire(t)| + 1 && (msgtype.TextMessage? || t == []) && 0 !in t
    ensures Answer(text, nlines, msgtype) != Due(t, msgtype)
  {
    AnswerToSent(t, msgtype);
    hide Due, LineCount;
  }

  /** Nor does one of more lines get the answer due to a key, a character or an icon on one line. */
  lemma MoreLinesAreWrong(t: seq<Byte>, msgtype: MessageType, text: seq<Byte>, nlines: nat)
    requires |text| >= |OnTheWire(t)| + 1 && nlines > 1
    requires !msgtype.TextMessage? && t != [] && LF !in t && 0 !in t
    ensures Answer(text, nlines, msgtype) != Due(t, msgtype)
  {
    AnswerToSent(t, msgtype);
    OnTheWireIsLong(t);
    hide Due, LineCount, OnTheWire;
  }

  /** Whether a new module, sent a text with `tail` behind it, gathers the text, gives it the answer due, and leaves
      `tail`. */
  ghost predicate Arrives(g: Gathered, t: seq<Byte>, tail: seq<Byte>, msgtype: MessageType)
    requires g.calls != [] && Good(EndOf(g.calls).buf)
  {
    g.done && Answer(g.text, g.nlines, msgtype) == Due(t, msgtype) && Ahead(EndOf(g.calls)) == tail
  }

  /** What a new line buffer has in front of it. */
  function Pipeline(sent: seq<Byte>, script: seq<Outcome>): (p: Pipe)
    ensures Good(p.buf) && Ahead(p) == sent && AtLineStart(p.buf)
  {
    Pipe(Buf([], 0, 0, 0), sent, script)
  }

  lemma NewIsSteady(sent: seq<Byte>, script: seq<Outcome>)
    requires (forall i | 0 <= i < |script| :: Delivers(script[i])) && |sent| <= |script| < SIZE_T / 2
    ensures Steady(Pipeline(sent, script))
  {
  }

  lemma NewIsComing(t: seq<Byte>, tail: seq<Byte>, script: seq<Outcome>)
    requires 0 !in t
    ensures Coming(Pipeline(Sent(t) + tail, script), tail)
  {
    SentIsReceived(t, tail);
    SentHasNoNul(t);
    NothingIsClean();
    hide Received, Sent, Clean;
    var p, sent := Pipeline(Sent(t) + tail, script), Sent(t) + tail;
    assert Behind(p.buf) == [];
    assert sent[..|sent| - |tail|] == Sent(t);
  }

  lemma SentHasNoNul(t: seq<Byte>)
    requires 0 !in t
    ensures 0 !in Sent(t)
  {
    EscapedHasNoNul(t, true);
    hide Escaped;
  }

  lemma {:induction false} EscapedHasNoNul(t: seq<Byte>, atStart: bool)
    requires 0 !in t
    ensures 0 !in Escaped(t, atStart)
  {
    if t != [] {
      assert t[0] in t;
      EscapedStep(t, atStart);
      hide Escaped;
      EscapedHasNoNul(t[1..], t[0] == LF);
    }
  }

  /** A message without NUL, sent to a new module over a descriptor that goes on delivering, gets the answer due and
      leaves what follows it: a text message exactly if no call makes a returned line pending again; a key, character or
      icon on one line exactly if no call returns a wrong line. */
  lemma ArrivesExactly(t: seq<Byte>, tail: seq<Byte>, script: seq<Outcome>, repaired: bool, msgtype: MessageType)
    requires 0 !in t
    requires (forall i | 0 <= i < |script| :: Delivers(script[i])) && |Sent(t) + tail| <= |script| < SIZE_T / 2
    ensures var g := Gather(Pipeline(Sent(t) + tail, script), repaired, [], 0);
            && Good(EndOf(g.calls).buf)
            && (!AnyRepeat(g.calls) ==> g.text == OnTheWire(t) + [LF])
            && (msgtype.TextMessage? || t == [] ==> (Arrives(g, t, tail, msgtype) <==> !AnyRepeat(g.calls)))
            && (!msgtype.TextMessage? && t != [] && LF !in t ==>
                  (Arrives(g, t, tail, msgtype) <==> !AnyStale(g.calls)))
  {
    hide Gather, Received, Sent, Answer, Due, Good, Ahead, Steady, Coming, AnyStale, AnyRepeat, Pipeline, Delivers,
         LineCount, OnTheWire;
    var p := Pipeline(Sent(t) + tail, script);
    var g := Gather(p, repaired, [], 0);
    SentIsReceived(t, tail);
    NewIsSteady(Sent(t) + tail, script);
    NewIsComing(t, tail, script);
    GatherGains(p, repaired, [], 0, tail);
    RepeatIsStale(g.calls);
    OnTheWireIsLong(t);
    LineCountIsOne(OnTheWire(t));
    if !AnyRepeat(g.calls) {
      GatherIsReceived(p, repaired, [], 0);
      if !AnyStale(g.calls) || msgtype.TextMessage? || t == [] {
        RightAnswer(t, msgtype, g.text, g.nlines);
      }
    }
    if g.done && Ahead(EndOf(g.calls)) == tail {
      if AnyRepeat(g.calls) && (msgtype.TextMessage? || t == []) {
        LongerIsWrong(t, msgtype, g.text, g.nlines);
      }
      if AnyStale(g.calls) && !msgtype.TextMessage? && t != [] && LF !in t {
        MoreLinesAreWrong(t, msgtype, g.text, g.nlines);
      }
    }
  }

  /** Conditions on the reads under which no call returns a wrong line. */
  lemma SafeReads(p: Pipe, repaired: bool)
    requires Good(p.buf) && AtLineStart(p.buf)
    ensures var calls := Gather(p, repaired, [], 0).calls;
            repaired || ReadsAligned(calls) || OneAtATime(p.script) ==> !AnyStale(calls)
  {
    WrongLinesExactly(p, repaired);
    hide Gather, ReadsAligned, OneAtATime, StaleRisk, AtLineStart, Good, AnyStale;
    if OneAtATime(p.script) {
      SingleBytesAreAligned(p, repaired, [], 0);
    }
    if ReadsAligned(Gather(p, repaired, [], 0).calls) {
      AlignedIsRight(p, repaired, [], 0);
    }
  }

  /** A message through the pipe: stuffed by the server, chopped by the reads, collected by the module. A text is spoken
      as it is, and what follows it stays for the next command, exactly if no call makes a returned line pending again;
      a key, character or icon on one line gets the answer due exactly if no call returns a wrong line. */
  method SendAndSpeak(t: seq<Byte>, tail: seq<Byte>, script: seq<Outcome>, msgtype: MessageType, repaired: bool,
                      limit: nat) returns (r: Reply, ghost left: seq<Byte>)
    requires 0 !in t && 2 * |OnTheWire(t)| + 2 <= limit
    requires (forall i | 0 <= i < |script| :: Delivers(script[i])) && |Sent(t) + tail| <= |script| < SIZE_T / 2
    ensures var calls := Gather(Pipeline(Sent(t) + tail, script), repaired, [], 0).calls;
            && (msgtype.TextMessage? || t == [] ==> (r == Due(t, msgtype) && left == tail <==> !AnyRepeat(calls)))
            && (!msgtype.TextMessage? && t != [] && LF !in t ==>
                  (r == Due(t, msgtype) && left == tail <==> !AnyStale(calls)))
            && (repaired || ReadsAligned(calls) || OneAtATime(script) ==> !AnyStale(calls) && !AnyRepeat(calls))
    ensures msgtype.TextMessage? && t != [] && t != SPACE ==> Due(t, msgtype) == Speak(t)
  {
    hide Received, Sent, Answer, Gather, ReadsAligned, OneAtATime, AnyStale, AnyRepeat, Due, Delivers, LineCount;
    var reader := new Reader(repaired);
    var input := new Input(Sent(t) + tail, script);
    ghost var p := Pipeline(Sent(t) + tail, script);
    assert reader.PipeOf(input) == p;
    ArrivesExactly(t, tail, script, repaired, msgtype);
    SafeReads(p, repaired);
    RepeatIsStale(Gather(p, repaired, [], 0).calls);
    AnswerToSent(t, msgtype);
    DueIsAnAnswer(t, msgtype);
    r := CmdSpeak(reader, input, msgtype, limit);
    left := Ahead(reader.PipeOf(input));
  }

  lemma DueIsAnAnswer(t: seq<Byte>, msgtype: MessageType)
    ensures Due(t, msgtype) != Gone && Due(t, msgtype) != NoRoom
  {
  }
}
