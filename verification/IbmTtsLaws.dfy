/** What the synthesis loop of ibmtts.c makes of a message that was printed from texts and marks. */
module IbmTtsLaws {
  import opened Collections
  import opened Strings
  import opened IbmTts

  datatype Item = Txt(text: string) | Mark(name: string)

  function Print(item: Item): string {
    match item
    case Txt(text) => text
    case Mark(name) => HEAD + name + TAIL
  }

  function Printed(items: seq<Item>): string {
    if items == [] then "" else Print(items[0]) + Printed(items[1..])
  }

  /** A text without the head of a mark, and not dressed in a speak tag; a name that does not end its mark. */
  predicate GoodItem(item: Item) {
    match item
    case Txt(text) =>
      text != "" && Index(text, HEAD) == -1 && Index(text, HEAD2) == -1
      && !(SPEAK <= text) && !EndsWith(text, END_SPEAK)
    case Mark(name) => name != "" && Index(name, TAIL) == -1
  }

  /** Good items, no text beside a text. */
  predicate GoodItems(items: seq<Item>) {
    && (forall i | 0 <= i < |items| :: GoodItem(items[i]))
    && (forall i | 0 <= i < |items| - 1 :: items[i].Mark? || items[i + 1].Mark?)
  }

  /** The calls that speak the items, when `marks` marks have a number already. */
  function CallsOf(items: seq<Item>, marks: nat): seq<Call> {
    if items == [] then [InsertIndex(MSG_END_MARK), Synthesize]
    else if items[0].Txt? then [AddText(items[0].text)] + CallsOf(items[1..], marks)
    else [InsertIndex(1 + marks)] + CallsOf(items[1..], marks + 1)
  }

  function NamesOf(items: seq<Item>): seq<string> {
    if items == [] then [] else (if items[0].Mark? then [items[0].name] else []) + NamesOf(items[1..])
  }

  // ---------------------------------------------------------------- where patterns cannot begin

  /** `pat` has no `<` but in front. */
  predicate Tag(pat: string) {
    pat != "" && pat[0] == '<' && forall d | 1 <= d < |pat| :: pat[d] != '<'
  }

  lemma TagsAreTags()
    ensures Tag(HEAD) && Tag(HEAD2) && Tag(SPEAK) && Tag(END_SPEAK)
  {
  }

  /** A tag does not begin in a text that ends before another tag, if it is not all in the text. */
  lemma NotAcross(text: string, rest: string, pat: string, i: nat)
    requires Tag(pat) && i < |text| && (rest == "" || rest[0] == '<') && !At(text, i, pat)
    ensures !At(text + rest, i, pat)
  {
    var s := text + rest;
    if i + |pat| <= |text| {
      assert s[i..i + |pat|] == text[i..i + |pat|];
    } else if rest != "" {
      NotAt(s, i, pat, |text| - i);
    }
  }

  lemma NotInText(text: string, rest: string, pat: string)
    requires Tag(pat) && (rest == "" || rest[0] == '<') && Index(text, pat) == -1
    ensures forall i: nat | i < |text| :: !At(text + rest, i, pat)
  {
    forall i: nat | i < |text|
      ensures !At(text + rest, i, pat)
    {
      NotAcross(text, rest, pat, i);
    }
  }

  // ---------------------------------------------------------------- single parts

  lemma TextBeforeMark(text: string, rest: string)
    requires text != "" && Index(text, HEAD) == -1 && HEAD <= rest
    ensures NextPart(text + rest) == Part(text, None)
  {
    TagsAreTags();
    NotInText(text, rest, HEAD);
    var s := text + rest;
    assert s[|text|..|text| + |HEAD|] == rest[..|HEAD|];
    IndexIs(s, HEAD, |text|);
    hide Index;
    assert s[..|text|] == text;
  }

  lemma NoHeadBeforeEnd(text: string, end: string, head: string)
    requires Tag(head) && |head| == HEAD_LEN && Index(text, head) == -1 && (end == "" || end == END_SPEAK)
    ensures Index(text + end, head) == -1
  {
    NotInText(text, end, head);
    var r := Index(text + end, head);
    assert r != -1 ==> r + HEAD_LEN <= |text| + |end|;
  }

  lemma TextBeforeEnd(text: string, end: string)
    requires Index(text, HEAD) == -1 && Index(text, HEAD2) == -1 && (end == "" || end == END_SPEAK)
    ensures NextPart(text + end) == Part(text + end, None)
  {
    TagsAreTags();
    NoHeadBeforeEnd(text, end, HEAD);
    NoHeadBeforeEnd(text, end, HEAD2);
    hide Index;
  }

  /** The tail of a mark is the first one, even if the name ends in a quote. */
  lemma TailIsFirst(name: string, rest: string)
    requires Index(name, TAIL) == -1
    ensures Index(name + TAIL + rest, TAIL) == |name|
  {
    var s := name + TAIL + rest;
    forall j: nat | j < |name|
      ensures !At(s, j, TAIL)
    {
      if j + TAIL_LEN <= |name| {
        assert s[j..j + TAIL_LEN] == name[j..j + TAIL_LEN];
        assert !At(name, j, TAIL);
      } else {
        NotAt(s, j, TAIL, |name| - j);
      }
    }
    assert s[|name|..|name| + |TAIL|] == TAIL;
    IndexIs(s, TAIL, |name|);
  }

  lemma MarkIsTaken(name: string, rest: string)
    requires name != "" && Index(name, TAIL) == -1
    ensures NextPart(HEAD + name + TAIL + rest) == Part(HEAD + name + TAIL, Some(name))
  {
    var s := HEAD + name + TAIL + rest;
    assert s[0..|HEAD|] == HEAD;
    IndexIs(s, HEAD, 0);
    assert s[HEAD_LEN..] == name + TAIL + rest;
    TailIsFirst(name, rest);
    hide Index;
    assert (name + TAIL + rest)[..|name|] == name;
    assert ExtractMarkName(s) == Some(name);
    hide ExtractMarkName;
    assert s[..HEAD_LEN + |name| + TAIL_LEN] == HEAD + name + TAIL;
  }

  lemma Tail2IsFirst(name: string, rest: string)
    requires name != "" && Index(name, TAIL2) == -1
    ensures Index(name + TAIL2 + rest, TAIL2) == |name|
  {
    var s := name + TAIL2 + rest;
    hide Index;
    forall j: nat | j < |name|
      ensures !At(s, j, TAIL2)
    {
      if j + |TAIL2| <= |name| {
        assert s[j..j + |TAIL2|] == name[j..j + |TAIL2|];
        assert !At(name, j, TAIL2);
      } else {
        assert s[|name|] == '\'' && TAIL2[1] == '/' && TAIL2[2] == '>';
        NotAt(s, j, TAIL2, |name| - j);
      }
    }
    assert s[|name|..|name| + |TAIL2|] == TAIL2;
    IndexIs(s, TAIL2, |name|);
  }

  /** A mark in single quotes is taken too, if nothing in double quotes stands anywhere behind it. */
  lemma SingleQuotedIsTaken(name: string, rest: string)
    requires name != "" && Index(name, TAIL2) == -1
    requires Index("<mark name='" + name + "'/>" + rest, "<mark name=\"") == -1
    requires Index(name + "'/>" + rest, "\"/>") == -1
    ensures NextPart("<mark name='" + name + "'/>" + rest) == Part("<mark name='" + name + "'/>", Some(name))
  {
    var s := HEAD2 + name + TAIL2 + rest;
    assert s[0..|HEAD2|] == HEAD2;
    IndexIs(s, HEAD2, 0);
    assert s[HEAD_LEN..] == name + TAIL2 + rest;
    Tail2IsFirst(name, rest);
    hide Index;
    assert (name + TAIL2 + rest)[..|name|] == name;
    assert ExtractMarkName(s) == Some(name);
    hide ExtractMarkName;
    assert s[..HEAD_LEN + |name| + TAIL_LEN] == HEAD2 + name + TAIL2;
  }

  // ---------------------------------------------------------------- a whole message

  lemma NoSpeakInFront(text: string, rest: string)
    requires text != "" && !(SPEAK <= text) && (rest == "" || rest[0] == '<')
    ensures !(SPEAK <= text + rest)
  {
    TagsAreTags();
    AtIsPrefix(text, 0, SPEAK);
    AtIsPrefix(text + rest, 0, SPEAK);
    assert text[0..] == text && (text + rest)[0..] == text + rest;
    NotAcross(text, rest, SPEAK, 0);
  }

  lemma OtherTags(rest: string)
    ensures !(SPEAK <= HEAD + rest) && !(SPEAK <= END_SPEAK) && !(SPEAK <= "")
  {
    assert (HEAD + rest)[1] == 'm' && END_SPEAK[1] == '/' && SPEAK[1] == 's';
  }

  lemma EndIsDropped(text: string, end: string)
    requires !EndsWith(text, END_SPEAK) && (end == "" || end == END_SPEAK)
    ensures WithoutEndSpeak(text + end) == text
  {
    if end == "" {
      assert text + end == text;
    } else {
      assert (text + end)[|text|..] == END_SPEAK && (text + end)[..|text|] == text;
    }
  }

  lemma EndIsCalled(end: string, marks: nat)
    requires end == "" || end == END_SPEAK
    ensures Calls(end, marks) == ([InsertIndex(MSG_END_MARK), Synthesize], []) && !(SPEAK <= end)
  {
    CallsStep(end, marks);
    OtherTags("");
    NothingToFind();
    TextBeforeEnd("", end);
    assert "" + end == end;
    hide NextPart, Calls;
    EndIsDropped("", end);
  }

  lemma NothingToFind()
    ensures Index("", HEAD) == -1 && Index("", HEAD2) == -1 && !EndsWith("", END_SPEAK)
  {
  }

  lemma LastTextIsCalled(text: string, end: string, marks: nat)
    requires GoodItem(Txt(text)) && (end == "" || end == END_SPEAK)
    ensures Calls(text + end, marks) == ([AddText(text)] + [InsertIndex(MSG_END_MARK), Synthesize], [])
    ensures !(SPEAK <= text + end)
  {
    hide NextPart, Calls, Index;
    CallsStep(text + end, marks);
    NoSpeakInFront(text, end);
    TextBeforeEnd(text, end);
    EndIsDropped(text, end);
    assert (text + end)[|text + end|..] == "";
    EndIsCalled("", marks);
    hide WithoutEndSpeak, EndsWith;
  }

  lemma TextIsCalled(text: string, rest: string, marks: nat)
    requires GoodItem(Txt(text)) && HEAD <= rest
    ensures Calls(text + rest, marks) == ([AddText(text)] + Calls(rest, marks).0, Calls(rest, marks).1)
    ensures !(SPEAK <= text + rest)
  {
    hide NextPart, Calls, Index;
    CallsStep(text + rest, marks);
    NoSpeakInFront(text, rest);
    TextBeforeMark(text, rest);
    EndIsDropped(text, "");
    assert text + "" == text && (text + rest)[|text|..] == rest;
    hide WithoutEndSpeak, EndsWith;
  }

  lemma MarkIsCalled(name: string, rest: string, marks: nat)
    requires GoodItem(Mark(name))
    ensures Calls(Print(Mark(name)) + rest, marks) ==
            ([InsertIndex(1 + marks)] + Calls(rest, marks + 1).0, [name] + Calls(rest, marks + 1).1)
    ensures !(SPEAK <= Print(Mark(name)) + rest) && HEAD <= Print(Mark(name)) + rest
  {
    hide NextPart, Calls, Index;
    var s, mark := Print(Mark(name)) + rest, HEAD + name + TAIL;
    assert mark == Print(Mark(name)) && s == HEAD + (name + TAIL + rest);
    OtherTags(name + TAIL + rest);
    CallsStep(s, marks);
    MarkIsTaken(name, rest);
    hide WithoutEndSpeak, EndsWith, Print;
    assert s[|mark|..] == rest;
  }

  lemma PrintedStep(items: seq<Item>, end: string)
    requires items != []
    ensures Printed(items) + end == Print(items[0]) + (Printed(items[1..]) + end)
  {
    hide Print;
    Reassociate(Print(items[0]), Printed(items[1..]), end);
  }

  lemma PrintedOne(items: seq<Item>, end: string)
    requires |items| == 1
    ensures Printed(items) + end == Print(items[0]) + end
  {
    hide Print;
    PrintedStep(items, end);
    assert items[1..] == [];
    assert "" + end == end;
  }

  /** Texts and names arrive in order, each mark under the next number. */
  lemma {:induction false} ItemsAreCalled(items: seq<Item>, end: string, marks: nat)
    requires GoodItems(items) && (end == "" || end == END_SPEAK)
    ensures Calls(Printed(items) + end, marks) == (CallsOf(items, marks), NamesOf(items))
    ensures !(SPEAK <= Printed(items) + end)
    ensures items != [] && items[0].Mark? ==> HEAD <= Printed(items) + end
  {
    hide NextPart, Calls, Index, EndsWith;
    if items == [] {
      assert "" + end == end;
      EndIsCalled(end, marks);
    } else {
      var rest := Printed(items[1..]) + end;
      PrintedStep(items, end);
      assert GoodItems(items[1..]) && GoodItem(items[0]);
      match items[0]
      case Txt(text) =>
        ItemsAreCalled(items[1..], end, marks);
        assert [] + NamesOf(items[1..]) == NamesOf(items[1..]);
        if |items| == 1 {
          PrintedOne(items, end);
          LastTextIsCalled(text, end, marks);
          assert items[1..] == [] && CallsOf(items[1..], marks) == [InsertIndex(MSG_END_MARK), Synthesize];
        } else {
          assert items[0].Mark? || items[0 + 1].Mark?;
          TextIsCalled(text, rest, marks);
        }
      case Mark(name) =>
        ItemsAreCalled(items[1..], end, marks + 1);
        hide Print;
        MarkIsCalled(name, rest, marks);
    }
  }

  /** The tags around the message are not spoken. */
  lemma MessageIsCalled(items: seq<Item>)
    requires GoodItems(items)
    ensures Calls(Printed(items), 0) == (CallsOf(items, 0), NamesOf(items))
    ensures Calls(SPEAK + Printed(items) + END_SPEAK, 0) == (CallsOf(items, 0), NamesOf(items))
  {
    ItemsAreCalled(items, "", 0);
    assert Printed(items) + "" == Printed(items);
    ItemsAreCalled(items, END_SPEAK, 0);
    var msg := Printed(items) + END_SPEAK;
    assert SPEAK + Printed(items) + END_SPEAK == SPEAK + msg;
    CallsStep(SPEAK + msg, 0);
    CallsStep(msg, 0);
    assert (SPEAK + msg)[|SPEAK|..] == msg;
    hide Calls, NextPart, Printed;
  }

  // ---------------------------------------------------------------- ill-formed marks

  predicate NoTail(msg: string) {
    Index(msg, TAIL) == -1 && Index(msg, TAIL2) == -1
  }

  lemma NotInSuffix(s: string, k: nat, pat: string)
    requires k <= |s| && Index(s, pat) == -1
    ensures Index(s[k..], pat) == -1
  {
    var r := Index(s[k..], pat);
    if r != -1 {
      assert s[k..][r..r + |pat|] == s[k + r..k + r + |pat|];
      assert At(s, k + r, pat);
    }
  }

  /** Behind an ill-formed mark no mark is taken either: the text up to the next head is one part. */
  lemma {:induction false} NoMarkWithoutTail(msg: string)
    requires |msg| < HEAD_LEN + TAIL_LEN + 1 || NoTail(msg)
    ensures NextPart(msg).name == None
    decreases |msg|
  {
    if MarkHead(msg) == 0 {
      if NoTail(msg) {
        NotInSuffix(msg, HEAD_LEN, TAIL);
        NotInSuffix(msg, HEAD_LEN, TAIL2);
      }
      var tail := Index(msg[HEAD_LEN..], TAIL_TAIL);
      if tail != -1 {
        var k := HEAD_LEN + tail + |TAIL_TAIL|;
        if NoTail(msg) {
          NotInSuffix(msg, k, TAIL);
          NotInSuffix(msg, k, TAIL2);
        }
        NoMarkWithoutTail(msg[k..]);
      }
    }
  }

  /** A part is a mark exactly if the message begins with a head behind which a name is found. */
  lemma MarkOrText(msg: string)
    ensures NextPart(msg).name.Some? <==> MarkHead(msg) == 0 && ExtractMarkName(msg).Some?
  {
    if MarkHead(msg) == 0 && ExtractMarkName(msg).None? {
      var tail := Index(msg[HEAD_LEN..], TAIL_TAIL);
      if tail != -1 {
        var k := HEAD_LEN + tail + |TAIL_TAIL|;
        if |msg| >= HEAD_LEN + TAIL_LEN + 1 {
          NotInSuffix(msg[HEAD_LEN..], k - HEAD_LEN, TAIL);
          NotInSuffix(msg[HEAD_LEN..], k - HEAD_LEN, TAIL2);
          assert msg[HEAD_LEN..][k - HEAD_LEN..] == msg[k..];
        }
        NoMarkWithoutTail(msg[k..]);
      }
    }
  }
}
