/** The mark tokeniser and the synthesis loop of src/modules/ibmtts.c. */
module IbmTts {
  import opened Collections
  import opened Strings

  const HEAD := "<mark name=\""
  const HEAD2 := "<mark name='"
  const HEAD_LEN := 12
  const TAIL := "\"/>"
  const TAIL2 := "'/>"
  const TAIL_LEN := 3
  const TAIL_TAIL := ">"
  const SPEAK := "<speak>"
  const END_SPEAK := "</speak>"
  const MSG_END_MARK := 0

  /** extract_mark_name */
  function ExtractMarkName(mark: string): (r: Option<string>)
    requires |mark| >= HEAD_LEN
    ensures r.Some? ==> HEAD_LEN + |r.value| + TAIL_LEN <= |mark|
  {
    if HEAD_LEN + TAIL_LEN + 1 > |mark| then None
    else
      var rest := mark[HEAD_LEN..];
      var tail := if Index(rest, TAIL) != -1 then Index(rest, TAIL) else Index(rest, TAIL2);
      if tail == -1 then None else Some(rest[..tail])
  }

  /** The place of the next mark, or -1; one with single quotes is looked for only if there is no other. */
  function MarkHead(msg: string): (h: int)
    ensures h == -1 || (0 <= h && h + HEAD_LEN <= |msg|)
  {
    if Index(msg, HEAD) != -1 then Index(msg, HEAD) else Index(msg, HEAD2)
  }

  datatype Part = Part(text: string, name: Option<string>)

  /** next_part: a part of the message from its beginning, never nothing unless there is nothing, and the name if it
      is a mark. */
  function NextPart(msg: string): (r: Part)
    ensures r.text <= msg && (msg != "" ==> r.text != "")
    decreases |msg|
  {
    var h := MarkHead(msg);
    if h == -1 then Part(msg, None)
    else if h > 0 then Part(msg[..h], None)
    else if ExtractMarkName(msg).None? then
      var tail := Index(msg[HEAD_LEN..], TAIL_TAIL);
      if tail == -1 then Part(msg, None)
      else
        var k := HEAD_LEN + tail + |TAIL_TAIL|;
        var remainder := NextPart(msg[k..]);
        Part(msg[..k] + remainder.text, remainder.name)
    else
      var name := ExtractMarkName(msg).value;
      Part(msg[..HEAD_LEN + |name| + TAIL_LEN], Some(name))
  }

  lemma PartIsFront(msg: string)
    ensures var r := NextPart(msg); |r.text| <= |msg| && (r.name.Some? ==> r.text != "")
  {
  }

  // ---------------------------------------------------------------- synthesis

  /** What the engine is told. */
  datatype Call = AddText(text: string) | InsertIndex(id: nat) | Synthesize

  predicate EndsWith(s: string, end: string) {
    |s| >= |end| && s[|s| - |end|..] == end
  }

  function WithoutSpeak(pos: string): string {
    if SPEAK <= pos then pos[|SPEAK|..] else pos
  }

  function WithoutEndSpeak(part: string): string {
    if EndsWith(part, END_SPEAK) then part[..|part| - |END_SPEAK|] else part
  }

  /** The calls for a message from a place on where `marks` marks have a number, and the names of the further marks. */
  function Calls(pos: string, marks: nat): (seq<Call>, seq<string>)
    decreases |pos|
  {
    var p := WithoutSpeak(pos);
    var part := NextPart(p);
    if part.name.Some? then
      var (calls, names) := Calls(p[|part.text|..], marks + 1);
      ([InsertIndex(1 + marks)] + calls, [part.name.value] + names)
    else if WithoutEndSpeak(part.text) != "" then
      var (calls, names) := Calls(p[|part.text|..], marks);
      ([AddText(WithoutEndSpeak(part.text))] + calls, names)
    else ([InsertIndex(MSG_END_MARK), Synthesize], [])
  }

  lemma CallsStep(pos: string, marks: nat)
    ensures var p := WithoutSpeak(pos); var part := NextPart(p); var rest := p[|part.text|..];
            Calls(pos, marks) ==
            if part.name.Some? then
              ([InsertIndex(1 + marks)] + Calls(rest, marks + 1).0, [part.name.value] + Calls(rest, marks + 1).1)
            else if WithoutEndSpeak(part.text) != "" then
              ([AddText(WithoutEndSpeak(part.text))] + Calls(rest, marks).0, Calls(rest, marks).1)
            else ([InsertIndex(MSG_END_MARK), Synthesize], [])
  {
  }

  /** The table of mark names after so many marks. */
  function Numbered(names: seq<string>): map<nat, string> {
    if names == [] then map[] else Numbered(names[..|names| - 1])[|names| := names[|names| - 1]]
  }

  lemma NumberedStep(names: seq<string>, name: string)
    ensures Numbered(names + [name]) == Numbered(names)[1 + |names| := name]
  {
    assert (names + [name])[..|names|] == names;
  }

  /** Number i names the i-th mark. */
  lemma {:induction false} NumberedNames(names: seq<string>, i: nat)
    ensures i in Numbered(names) <==> 1 <= i <= |names|
    ensures 1 <= i <= |names| ==> Numbered(names)[i] == names[i - 1]
    ensures |Numbered(names)| == |names|
  {
    if names != [] {
      var n := |names| - 1;
      NumberedNames(names[..n], i);
      NumberedNames(names[..n], |names|);
    }
  }

  /** What module_process and the engine do in one turn of the loop. */
  datatype Turn = Turn(stop: bool, accepts: bool)

  /** Beyond the end of the script nothing happens. */
  function NextTurn(script: seq<Turn>, i: nat): (t: Turn)
    ensures Smooth(script) ==> !t.stop && t.accepts
  {
    if i < |script| then script[i] else Turn(false, true)
  }

  /** Nobody stops the synthesis, and the engine accepts everything. */
  predicate Smooth(script: seq<Turn>) {
    forall t | t in script :: !t.stop && t.accepts
  }

  class Synthesizer {
    var indexMarks: map<nat, string>
    var calls: seq<Call>

    constructor ()
      ensures calls == [] && indexMarks == map[]
    {
      calls, indexMarks := [], map[];
    }

    /** process_text_mark: 0 to go on. */
    method ProcessTextMark(part: string, name: Option<string>, accepts: bool) returns (ret: int)
      modifies this
      ensures name.Some? ==>
                && ret == 0 && indexMarks == old(indexMarks)[1 + |old(indexMarks)| := name.value]
                && calls == old(calls) + [InsertIndex(1 + |old(indexMarks)|)]
      ensures name.None? && part != "" ==>
                && (ret > 1 <==> !accepts) && (ret == 0 <==> accepts) && indexMarks == old(indexMarks)
                && calls == if accepts then old(calls) + [AddText(part)] else old(calls)
      ensures name.None? && part == "" ==>
                && ret > 1 && indexMarks == old(indexMarks)
                && calls == old(calls) + [InsertIndex(MSG_END_MARK)] + if accepts then [Synthesize] else []
    {
      if name.Some? {
        var markId := 1 + |indexMarks|;
        indexMarks := indexMarks[markId := name.value];
        calls := calls + [InsertIndex(markId)];
        return 0;
      }
      if |part| > 0 {
        if !accepts {
          return 2;
        }
        calls := calls + [AddText(part)];
        return 0;
      }
      calls := calls + [InsertIndex(MSG_END_MARK)];
      if !accepts {
        return 2;
      }
      calls := calls + [Synthesize];
      ret := 3;
    }

    /** The next part of the message without the tags of its ends, and where the loop goes on. */
    method Take(from: string) returns (part: Part, text: string, pos: string)
      ensures var p := WithoutSpeak(from);
              part == NextPart(p) && text == WithoutEndSpeak(part.text) && pos == p[|part.text|..]
      ensures text != "" || part.name.Some? ==> |pos| < |from|
    {
      hide NextPart, ExtractMarkName;
      pos := from;
      if SPEAK <= pos {
        pos := pos[|SPEAK|..];
      }
      assert pos == WithoutSpeak(from);
      hide WithoutSpeak;
      part := NextPart(pos);
      PartIsFront(pos);
      text := part.text;
      if |text| >= |END_SPEAK| && text[|text| - |END_SPEAK|..] == END_SPEAK {
        text := text[..|text| - |END_SPEAK|];
      }
      pos := pos[|part.text|..];
    }

    /** The part is processed, and the table of names stays the one for the marks sent. */
    method Send(text: string, name: Option<string>, accepts: bool, ghost names: seq<string>)
      returns (ret: int, ghost names': seq<string>)
      requires indexMarks == Numbered(names)
      modifies this
      ensures indexMarks == Numbered(names') && names' == if name.Some? then names + [name.value] else names
      ensures name.Some? ==> ret == 0 && calls == old(calls) + [InsertIndex(1 + |names|)]
      ensures name.None? && text != "" ==>
                (if accepts then ret == 0 else ret > 1)
                && calls == if accepts then old(calls) + [AddText(text)] else old(calls)
      ensures name.None? && text == "" ==>
                ret > 1 && calls == old(calls) + [InsertIndex(MSG_END_MARK)] + if accepts then [Synthesize] else []
    {
      NumberedNames(names, 0);
      if name.Some? {
        NumberedStep(names, name.value);
      }
      hide Numbered;
      names' := if name.Some? then names + [name.value] else names;
      ret := ProcessTextMark(text, name, accepts);
    }

    /** The loop of _synth; `names` are those of the marks that were sent. What is sent is the front part of the calls
        for the message, and all of them if nobody stops it and the engine accepts everything. */
    method Synth(message: string, script: seq<Turn>) returns (ghost names: seq<string>)
      requires calls == [] && indexMarks == map[]
      modifies this
      ensures calls <= Calls(message, 0).0 && names <= Calls(message, 0).1 && indexMarks == Numbered(names)
      ensures Smooth(script) ==> calls == Calls(message, 0).0 && names == Calls(message, 0).1
    {
      ghost var all := Calls(message, 0);
      var pos, turn := message, 0;
      names := [];
      assert indexMarks == Numbered(names);
      assert [] + all.0 == all.0 && [] + all.1 == all.1;
      hide *;
      while true
        invariant indexMarks == Numbered(names)
        invariant Remains(all, calls, names, pos)
        decreases |pos|
      {
        var t := NextTurn(script, turn);
        turn := turn + 1;
        RemainsFront(all, calls, names, pos);
        if t.stop {
          break;
        }
        OneTurn(pos, calls, names, all);
        var part, text, ret;
        part, text, pos := Take(pos);
        ret, names := Send(text, part.name, t.accepts, names);
        if ret > 1 {
          break;
        }
      }
    }
  }

  /** What has been sent, and the calls for the rest. */
  ghost predicate Remains(all: (seq<Call>, seq<string>), done: seq<Call>, names: seq<string>, pos: string) {
    all == (done + Calls(pos, |names|).0, names + Calls(pos, |names|).1)
  }

  lemma RemainsFront(all: (seq<Call>, seq<string>), done: seq<Call>, names: seq<string>, pos: string)
    requires Remains(all, done, names, pos)
    ensures done <= all.0 && names <= all.1
  {
  }

  /** What has been sent and what is still to be sent, before and after a turn. */
  lemma OneTurn(pos: string, done: seq<Call>, names: seq<string>, all: (seq<Call>, seq<string>))
    requires Remains(all, done, names, pos)
    ensures var p := WithoutSpeak(pos); var part := NextPart(p);
            var text, rest, n := WithoutEndSpeak(part.text), p[|part.text|..], |names|;
            if part.name.Some? then Remains(all, done + [InsertIndex(1 + n)], names + [part.name.value], rest)
            else if text != "" then Remains(all, done + [AddText(text)], names, rest)
            else all == (done + [InsertIndex(MSG_END_MARK)] + [Synthesize], names)
  {
    CallsStep(pos, |names|);
    hide Calls, NextPart, WithoutSpeak, WithoutEndSpeak;
    var c, part := Calls(pos, |names|), NextPart(WithoutSpeak(pos));
    var text, rest, n := WithoutEndSpeak(part.text), WithoutSpeak(pos)[|part.text|..], |names|;
    if part.name.Some? {
      Extend(all.0, done, c.0, [InsertIndex(1 + n)], Calls(rest, n + 1).0);
      Extend(all.1, names, c.1, [part.name.value], Calls(rest, n + 1).1);
    } else if text != "" {
      Extend(all.0, done, c.0, [AddText(text)], Calls(rest, n).0);
    } else {
      assert c.0 == [InsertIndex(MSG_END_MARK), Synthesize] == [InsertIndex(MSG_END_MARK)] + [Synthesize];
      Extend(all.0, done, c.0, [InsertIndex(MSG_END_MARK)], [Synthesize]);
      assert names + [] == names;
    }
  }

  lemma Extend<T>(all: seq<T>, done: seq<T>, c: seq<T>, x: seq<T>, rest: seq<T>)
    requires all == done + c && c == x + rest
    ensures all == done + x + rest
  {
  }
}
