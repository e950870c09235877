/** The SPEAK family of commands of src/modules/module_process.c, on top of the line buffer. */
module ModuleProcess {
  import opened Collections
  import opened Bytes
  import opened DotFraming
  import opened ModuleReadlineSpec
  import opened ModuleReadline
  import opened ModuleReadlineLaws

  datatype MessageType = TextMessage | SoundIcon | CharMessage | KeyMessage

  datatype Reply =
    | Gone           // the input is over before the message is
    | NoRoom         // 401: the text buffer cannot grow
    | CantSpeak      // 301
    | TooManyLines   // 305
    | Speak(text: seq<Byte>)

  /** How a collected body is answered. */
  function Answer(collected: seq<Byte>, nlines: nat, msgtype: MessageType): Reply {
    var text := if collected == [] then [] else collected[..|collected| - 1];
    if text == [] then CantSpeak
    else if msgtype != TextMessage && nlines > 1 then TooManyLines
    else if (msgtype.KeyMessage? || msgtype.CharMessage?) && text == SPACE_WORD then Speak(SPACE)
    else Speak(text)
  }

  const TEXT_ALLOCATED := 128

  /** The growing text of cmd_speak. */
  class TextBuffer {
    var text: array<Byte>
    var textLen: nat

    ghost predicate Valid()
      reads this
    {
      textLen <= text.Length && text.Length >= TEXT_ALLOCATED
    }

    ghost function Contents(): seq<Byte>
      requires Valid()
      reads this, text
    {
      text[..textLen]
    }

    constructor ()
      ensures Valid() && Contents() == [] && text.Length == TEXT_ALLOCATED && fresh(text)
    {
      text := new Byte[TEXT_ALLOCATED];
      textLen := 0;
    }

    /** Append a line, doubling the allocation until it fits; `limit` is the largest allocation realloc grants. */
    method Append(line: seq<Byte>, limit: nat) returns (ok: bool)
      requires Valid()
      modifies this, text
      ensures Valid() && (text == old(text) || fresh(text))
      ensures Contents() == if ok then old(Contents()) + line else old(Contents())
      ensures text.Length == old(text.Length) || text.Length < 2 * textLen
      ensures !ok ==> limit < 2 * (old(textLen) + |line|)
    {
      var newAllocated := text.Length;
      while textLen + |line| > newAllocated
        invariant newAllocated >= text.Length
        invariant newAllocated == text.Length || newAllocated < 2 * (textLen + |line|)
        decreases textLen + |line| - newAllocated
      {
        newAllocated := newAllocated * 2;
      }
      if newAllocated > text.Length {
        if newAllocated > limit {
          return false;
        }
        var newText := new Byte[newAllocated];
        forall i | 0 <= i < textLen {
          newText[i] := text[i];
        }
        assert newText[..textLen] == text[..textLen];
        text := newText;
      }
      forall i | 0 <= i < |line| {
        text[textLen + i] := line[i];
      }
      textLen := textLen + |line|;
      assert text[..textLen] == old(Contents()) + line;
      ok := true;
    }

    /** Replace the last newline by the final NUL. */
    method Terminate()
      requires Valid()
      modifies this, text
      ensures Valid()
      ensures Contents() == if old(Contents()) == [] then [] else old(Contents())[..|old(Contents())| - 1]
    {
      if textLen > 0 {
        textLen := textLen - 1;
        text[textLen] := 0;
      }
    }
  }

  // ---------------------------------------------------------------- collecting a message

  /** What the loop of cmd_speak has collected when it ends: whether it met the dot line, the text, its lines, and the
      calls of module_readline it made. */
  datatype Gathered = Gathered(done: bool, text: seq<Byte>, nlines: nat, calls: seq<Call>)

  function Gather(p: Pipe, repaired: bool, text: seq<Byte>, nlines: nat): (g: Gathered)
    requires Good(p.buf)
    ensures g.calls != []
    decreases |p.incoming|, |Ahead(p)|
  {
    var c := Next(p, true, repaired);
    NextDecreases(p, true, repaired);
    if c.got.NoLine? then Gathered(false, text, nlines, [c])
    else
      var line := LineOf(c.got).value;
      if line == DOT_LINE then Gathered(true, text, nlines, [c])
      else
        var g := Gather(c.after, repaired, text + Unstuffed(line), nlines + 1);
        g.(calls := [c] + g.calls)
  }

  lemma GatherStep(p: Pipe, repaired: bool, text: seq<Byte>, nlines: nat)
    requires Good(p.buf)
    ensures var c := Next(p, true, repaired);
            Gather(p, repaired, text, nlines) ==
            if c.got.NoLine? then Gathered(false, text, nlines, [c])
            else
              var line := LineOf(c.got).value;
              if line == DOT_LINE then Gathered(true, text, nlines, [c])
              else
                var g := Gather(c.after, repaired, text + Unstuffed(line), nlines + 1);
                g.(calls := [c] + g.calls)
  {
  }

  lemma {:induction false} GatherGrows(p: Pipe, repaired: bool, text: seq<Byte>, nlines: nat)
    requires Good(p.buf)
    ensures text <= Gather(p, repaired, text, nlines).text
    decreases |p.incoming|, |Ahead(p)|
  {
    hide Next, Gather, Good, Unstuffed;
    var c := Next(p, true, repaired);
    NextDecreases(p, true, repaired);
    GatherStep(p, repaired, text, nlines);
    if !c.got.NoLine? && LineOf(c.got).value != DOT_LINE {
      GatherGrows(c.after, repaired, text + Unstuffed(LineOf(c.got).value), nlines + 1);
    }
  }

  /** What is gathered in all is what is gathered from here on. */
  ghost predicate GatherLeft(all: Gathered, p: Pipe, repaired: bool, text: seq<Byte>, nlines: nat) {
    && Good(p.buf) && all.calls != []
    && var g := Gather(p, repaired, text, nlines);
       all.done == g.done && all.text == g.text && all.nlines == g.nlines && EndOf(all.calls) == EndOf(g.calls)
  }

  lemma GatherLeftStep(all: Gathered, p: Pipe, repaired: bool, text: seq<Byte>, nlines: nat)
    requires GatherLeft(all, p, repaired, text, nlines)
    ensures Good(p.buf) && text <= all.text && all.calls != []
    ensures var c := Next(p, true, repaired);
            if c.got.NoLine? then !all.done
            else if LineOf(c.got).value == DOT_LINE then
              all.done && all.text == text && all.nlines == nlines && EndOf(all.calls) == c.after
            else
              && GatherLeft(all, c.after, repaired, text + Unstuffed(LineOf(c.got).value), nlines + 1)
              && (|c.after.incoming| < |p.incoming|
                  || (|c.after.incoming| == |p.incoming| && |Ahead(c.after)| < |Ahead(p)|))
  {
    hide Gather, Next, Good, Ahead, Unstuffed;
    GatherStep(p, repaired, text, nlines);
    GatherGrows(p, repaired, text, nlines);
    NextDecreases(p, true, repaired);
  }

  /** The loop of cmd_speak: collect lines up to the dot line, or end with a reply; `limit` is the largest allocation
      realloc grants. */
  method Collect(reader: Reader, input: Input, buf: TextBuffer, limit: nat) returns (r: Option<Reply>, nlines: nat)
    requires reader.Valid() && buf.Valid() && buf.Contents() == [] && buf.text != reader.data
    modifies reader, reader.data, input, buf, buf.text
    ensures reader.Valid() && buf.Valid() && (reader.data == old(reader.data) || fresh(reader.data))
    ensures buf.text != reader.data && (buf.text == old(buf.text) || fresh(buf.text))
    ensures var g := Gather(old(reader.PipeOf(input)), reader.repaired, [], 0);
            match r
            case None => g.done && buf.Contents() == g.text && nlines == g.nlines
                         && reader.PipeOf(input) == EndOf(g.calls)
            case Some(reply) => (reply.Gone? && !g.done) || (reply.NoRoom? && limit < 2 * |g.text|)
  {
    hide Gather, GatherLeft, Next, Good, Ahead, Reader.Valid;
    reader.IsGood();
    ghost var all := Gather(reader.PipeOf(input), reader.repaired, [], 0);
    GatherLeftStart(reader.PipeOf(input), reader.repaired);
    nlines := 0;
    while true
      invariant reader.Valid() && Good(reader.buf) && buf.Valid() && buf.text != reader.data
      invariant reader.data == old(reader.data) || fresh(reader.data)
      invariant buf.text == old(buf.text) || fresh(buf.text)
      invariant GatherLeft(all, reader.PipeOf(input), reader.repaired, buf.Contents(), nlines)
      decreases |input.incoming|, |Ahead(reader.PipeOf(input))|
    {
      ghost var was := buf.Contents();
      GatherLeftStep(all, reader.PipeOf(input), reader.repaired, was, nlines);
      var result := reader.ReadLine(input, true);
      reader.IsGood();
      assert buf.Contents() == was;
      if result == None {
        r := Some(Gone);
        return;
      }
      var line := result.value;
      if line == DOT_LINE {
        r := None;
        return;
      }
      if line != [] && line[0] == DOT {
        line := line[1..];
      }
      nlines := nlines + 1;
      GatherLeftGrows(all, reader.PipeOf(input), reader.repaired, was + line, nlines);
      var ok := buf.Append(line, limit);
      if !ok {
        r := Some(NoRoom);
        return;
      }
    }
  }

  lemma GatherLeftStart(p: Pipe, repaired: bool)
    requires Good(p.buf)
    ensures GatherLeft(Gather(p, repaired, [], 0), p, repaired, [], 0)
  {
  }

  lemma GatherLeftGrows(all: Gathered, p: Pipe, repaired: bool, text: seq<Byte>, nlines: nat)
    requires GatherLeft(all, p, repaired, text, nlines)
    ensures text <= all.text
  {
    GatherGrows(p, repaired, text, nlines);
  }

  /** cmd_speak: the answer to what was collected; an answer is missing only if the input is over before the dot line
      or memory runs out. */
  method CmdSpeak(reader: Reader, input: Input, msgtype: MessageType, limit: nat) returns (r: Reply)
    requires reader.Valid()
    modifies reader, reader.data, input
    ensures reader.Valid()
    ensures var g := Gather(old(reader.PipeOf(input)), reader.repaired, [], 0);
            match r
            case Gone => !g.done
            case NoRoom => limit < 2 * |g.text|
            case _ => g.done && r == Answer(g.text, g.nlines, msgtype)
                      && reader.PipeOf(input) == EndOf(g.calls)
  {
    hide Gather;
    var buf := new TextBuffer();
    var failure, nlines := Collect(reader, input, buf, limit);
    if failure != None {
      return failure.value;
    }
    buf.Terminate();
    if buf.textLen == 0 {
      return CantSpeak;
    }
    if msgtype != TextMessage && nlines > 1 {
      return TooManyLines;
    }
    var text := buf.text[..buf.textLen];
    if (msgtype.KeyMessage? || msgtype.CharMessage?) && text == SPACE_WORD {
      text := SPACE;
    }
    return Speak(text);
  }
}
