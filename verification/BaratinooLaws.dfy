/** What the translated document says: every text is spoken under the voice of its nearest language. */
module BaratinooLaws {
  import opened Collections
  import opened Strings
  import opened BaratinooSpec

  // ---------------------------------------------------------------- reading the output

  /** The engine says a character with the voice in force, or obeys a command. */
  datatype Token = Say(c: char, voice: nat) | Obey(name: string, arg: string) | Unreadable

  /** The first place of a character, or the length. */
  function Until(s: string, c: char): (k: nat)
    ensures k <= |s| && (k < |s| ==> s[k] == c) && forall i | 0 <= i < k :: s[i] != c
  {
    if s == "" || s[0] == c then 0 else 1 + Until(s[1..], c)
  }

  predicate AllDigits(s: string) {
    forall c | c in s :: IsDigit(c)
  }

  /** A backslash begins a command with an argument in braces; `\vox{n}` sets the voice; two of them and empty braces
      are a backslash to say. */
  function Read(out: string, voice: nat): seq<Token>
    decreases |out|
  {
    if out == "" then []
    else if out[0] != '\\' then [Say(out[0], voice)] + Read(out[1..], voice)
    else if ESCAPED_BACKSLASH <= out then [Say('\\', voice)] + Read(out[|ESCAPED_BACKSLASH|..], voice)
    else
      var b := Until(out, '{');
      var e := Until(out[b..], '}');
      if b + e >= |out| then [Unreadable]
      else
        var name, arg, rest := out[1..b], out[b..b + e][1..], out[b + e + 1..];
        if name == "vox" then (if AllDigits(arg) then Read(rest, Value(arg)) else [Unreadable])
        else [Obey(name, arg)] + Read(rest, voice)
  }

  lemma ReadSay(c: char, rest: string, voice: nat)
    requires c != '\\'
    ensures Read([c] + rest, voice) == [Say(c, voice)] + Read(rest, voice)
  {
    assert ([c] + rest)[1..] == rest;
  }

  lemma ReadBackslash(rest: string, voice: nat)
    ensures Read(ESCAPED_BACKSLASH + rest, voice) == [Say('\\', voice)] + Read(rest, voice)
  {
    var out := ESCAPED_BACKSLASH + rest;
    assert out[0] == '\\' && out[|ESCAPED_BACKSLASH|..] == rest;
  }

  predicate IsName(name: string) {
    name != "" && name[0] != '\\' && '{' !in name
  }

  lemma UntilIs(s: string, c: char, k: nat)
    requires k < |s| && s[k] == c && forall i | 0 <= i < k :: s[i] != c
    ensures Until(s, c) == k
  {
    hide Until;
  }

  /** The parts of a command are found again. */
  lemma CommandParts(name: string, arg: string, rest: string)
    requires IsName(name) && '}' !in arg
    ensures var out := Command(name, arg) + rest; var b := |name| + 1;
            && out[0] == '\\' && !(ESCAPED_BACKSLASH <= out)
            && Until(out, '{') == b && Until(out[b..], '}') == |arg| + 1 && b + |arg| + 1 < |out|
            && out[1..b] == name && out[b..b + |arg| + 1][1..] == arg && out[b + |arg| + 2..] == rest
  {
    var out, b := Command(name, arg) + rest, |name| + 1;
    assert out[1..b] == name;
    assert out[1] == name[0] && ESCAPED_BACKSLASH[1] == '\\';
    forall i | 0 <= i < b
      ensures out[i] != '{'
    {
      assert i > 0 ==> out[i] == name[i - 1];
    }
    UntilIs(out, '{', b);
    var tail := out[b..];
    assert tail == "{" + arg + "}" + rest;
    UntilIs(tail, '}', |arg| + 1);
  }

  lemma ReadCommand(name: string, arg: string, rest: string, voice: nat)
    requires IsName(name) && name != "vox" && '}' !in arg
    ensures Read(Command(name, arg) + rest, voice) == [Obey(name, arg)] + Read(rest, voice)
  {
    CommandParts(name, arg, rest);
    hide Command, Until;
  }

  lemma ReadVox(n: nat, rest: string, voice: nat)
    ensures Read(Vox(n) + rest, voice) == Read(rest, n)
  {
    assert AllDigits(Decimal(n));
    ValueOfDecimal(n);
    assert IsName("vox");
    CommandParts("vox", Decimal(n), rest);
    hide Command, Until, Decimal;
  }

  // ---------------------------------------------------------------- what a document means

  /** A character said by name, and then once more for the intonation, if it is one that influences it and neither a
      letter, a digit nor a punctuation follows. */
  function ByName(c: char, next: char, voice: nat, config: Config): seq<Token> {
    [Obey("sayas<", "characters"), Say(c, voice), Obey("sayas>", "")]
    + if c in config.intonationList && !config.isAlnum(next) && !config.isPunct(next)
      then [Say(c, voice), Say(' ', voice)] else []
  }

  /** A character in each punctuation mode: with none spoken it is left out if the engine must not see it; with some
      or most spoken a listed one, and with all spoken any punctuation, is said by name. A backslash is always just
      said. */
  function CharMeaning(c: char, next: char, voice: nat, config: Config): seq<Token> {
    if c == '\\' then [Say(c, voice)]
    else
      match config.mode
      case PunctNone => if c in config.noIntonationList then [] else [Say(c, voice)]
      case PunctSome => if c in config.punctuationList then ByName(c, next, voice, config) else [Say(c, voice)]
      case PunctMost => if c in config.punctuationList then ByName(c, next, voice, config) else [Say(c, voice)]
      case PunctAll => if config.isPunct(c) then ByName(c, next, voice, config) else [Say(c, voice)]
  }

  function TextMeaning(text: string, voice: nat, config: Config): seq<Token> {
    if text == "" then []
    else CharMeaning(text[0], NextChar(text), voice, config) + TextMeaning(text[1..], voice, config)
  }

  function StartMeaning(name: string, attributes: seq<Attribute>): seq<Token> {
    if name == "mark" then [Obey("mark", ValueOf(attributes, "name"))]
    else if name == "emphasis" then [Obey("emph<", ValueOf(attributes, "level"))]
    else if name == "say-as" then [Obey("sayas<", SayAs(attributes))]
    else []
  }

  function EndMeaning(name: string): seq<Token> {
    if name == "emphasis" then [Obey("emph>", "")] else if name == "say-as" then [Obey("sayas>", "")] else []
  }

  /** Inside an element whose language has a voice that voice speaks, and elsewhere that of the surroundings. */
  function Meaning(node: Node, voice: nat, config: Config): seq<Token>
    decreases node, 0
  {
    match node
    case Text(text) => TextMeaning(text, voice, config)
    case Element(name, attributes, children) =>
      var inner := Inside(voice, attributes, config);
      StartMeaning(name, attributes) + MeaningAll(children, inner, config) + EndMeaning(name)
  }

  function MeaningAll(nodes: seq<Node>, voice: nat, config: Config): seq<Token>
    decreases nodes, 1
  {
    if nodes == [] then [] else Meaning(nodes[0], voice, config) + MeaningAll(nodes[1..], voice, config)
  }

  function Depth(node: Node): nat
    decreases node, 0
  {
    if node.Text? then 0 else 1 + DepthAll(node.children)
  }

  function DepthAll(nodes: seq<Node>): nat
    decreases nodes, 1
  {
    if nodes == [] then 0
    else if Depth(nodes[0]) > DepthAll(nodes[1..]) then Depth(nodes[0]) else DepthAll(nodes[1..])
  }

  /** What the start of an element prints as the argument of its command: of a mark its name, of an emphasis its level,
      of say-as the three attributes; of other elements nothing. */
  function Argument(name: string, attributes: seq<Attribute>): string {
    if name == "mark" then ValueOf(attributes, "name")
    else if name == "emphasis" then ValueOf(attributes, "level")
    else if name == "say-as" then SayAs(attributes)
    else ""
  }

  /** No attribute value that is printed holds a closing brace. */
  predicate Plain(node: Node)
    decreases node, 0
  {
    match node
    case Text(text) => true
    case Element(name, attributes, children) => '}' !in Argument(name, attributes) && PlainAll(children)
  }

  predicate PlainAll(nodes: seq<Node>)
    decreases nodes, 1
  {
    nodes == [] || (Plain(nodes[0]) && PlainAll(nodes[1..]))
  }

  // ---------------------------------------------------------------- the output says what the document means

  lemma CharIsRead(c: char, next: char, rest: string, voice: nat, config: Config)
    ensures Read(CharOut(c, next, config) + rest, voice) == CharMeaning(c, next, voice, config) + Read(rest, voice)
  {
    hide Read, Command;
    if c == '\\' {
      ReadBackslash(rest, voice);
    } else if SaidAsChar(c, config) {
      var again := if Repeated(c, next, config) then [c, ' '] else "";
      var end := Command("sayas>", "");
      var begin := Command("sayas<", "characters");
      assert begin + [c] + end + again + rest == begin + ([c] + (end + (again + rest)));
      ReadCommand("sayas<", "characters", [c] + (end + (again + rest)), voice);
      ReadSay(c, end + (again + rest), voice);
      ReadCommand("sayas>", "", again + rest, voice);
      if Repeated(c, next, config) {
        assert again + rest == [c] + ([' '] + rest);
        ReadSay(c, [' '] + rest, voice);
        ReadSay(' ', rest, voice);
      } else {
        assert again + rest == rest;
      }
    } else if NotSaid(c, config) {
      assert "" + rest == rest;
    } else {
      ReadSay(c, rest, voice);
    }
  }

  lemma {:induction false} TextIsRead(text: string, rest: string, voice: nat, config: Config)
    ensures Read(TextOut(text, config) + rest, voice) == TextMeaning(text, voice, config) + Read(rest, voice)
  {
    hide Read, CharOut, CharMeaning, NextChar;
    if text == "" {
      assert "" + rest == rest;
    } else {
      var first, others := CharOut(text[0], NextChar(text), config), TextOut(text[1..], config);
      CharIsRead(text[0], NextChar(text), others + rest, voice, config);
      assert first + others + rest == first + (others + rest);
      TextIsRead(text[1..], rest, voice, config);
    }
  }

  /** Up to the first closing brace in it an argument is read, and what follows is read as text. */
  lemma MisreadCommand(name: string, arg: string, rest: string, voice: nat, more: seq<Token>)
    requires IsName(name) && name != "vox" && '}' in arg
    ensures Read(Command(name, arg) + rest, voice) != [Obey(name, arg)] + more
  {
    var k := Until(arg, '}');
    var short, long := arg[..k], arg[k + 1..] + "}" + rest;
    assert Command(name, arg) + rest == Command(name, short) + long by {
      assert arg == short + "}" + arg[k + 1..];
    }
    ReadCommand(name, short, long, voice);
    hide Read, Command, Until;
    assert |short| < |arg|;
    assert ([Obey(name, short)] + Read(long, voice))[0] == Obey(name, short);
    assert ([Obey(name, arg)] + more)[0] == Obey(name, arg);
  }

  lemma StartIsRead(name: string, attributes: seq<Attribute>, rest: string, voice: nat)
    requires '}' !in Argument(name, attributes)
    ensures Read(StartOf(name, attributes) + rest, voice) == StartMeaning(name, attributes) + Read(rest, voice)
  {
    hide Read, Command, ValueOf, SayAs;
    if name == "mark" {
      ReadCommand("mark", ValueOf(attributes, "name"), rest, voice);
    } else if name == "emphasis" {
      ReadCommand("emph<", ValueOf(attributes, "level"), rest, voice);
    } else if name == "say-as" {
      ReadCommand("sayas<", SayAs(attributes), rest, voice);
    } else {
      assert "" + rest == rest;
    }
  }

  /** Nothing that follows makes up for a closing brace in the argument. */
  lemma StartIsMisread(name: string, attributes: seq<Attribute>, rest: string, voice: nat, more: seq<Token>)
    requires '}' in Argument(name, attributes)
    ensures Read(StartOf(name, attributes) + rest, voice) != StartMeaning(name, attributes) + more
  {
    hide Read, Command, ValueOf, SayAs;
    if name == "mark" {
      MisreadCommand("mark", ValueOf(attributes, "name"), rest, voice, more);
    } else if name == "emphasis" {
      MisreadCommand("emph<", ValueOf(attributes, "level"), rest, voice, more);
    } else {
      MisreadCommand("sayas<", SayAs(attributes), rest, voice, more);
    }
  }

  lemma EndIsRead(name: string, rest: string, voice: nat)
    ensures Read(EndOf(name) + rest, voice) == EndMeaning(name) + Read(rest, voice)
  {
    hide Read, Command;
    if name == "emphasis" {
      ReadCommand("emph>", "", rest, voice);
    } else if name == "say-as" {
      ReadCommand("sayas>", "", rest, voice);
    } else {
      assert "" + rest == rest;
    }
  }

  lemma PushIsRead(stack: seq<nat>, attributes: seq<Attribute>, rest: string, config: Config)
    requires |stack| < STACK_SIZE
    ensures var (vox, inner) := Pushed(stack, attributes, config);
            var voice := Inside(Current(stack, config), attributes, config);
            inner == stack + [voice] && Read(vox + rest, Current(stack, config)) == Read(rest, voice)
  {
    hide Read, Vox;
    var voice := Inside(Current(stack, config), attributes, config);
    if voice != Current(stack, config) {
      ReadVox(voice, rest, Current(stack, config));
    } else {
      assert "" + rest == rest;
    }
  }

  lemma PopIsRead(stack: seq<nat>, voice: nat, rest: string)
    ensures var (back, outer) := Popped(stack + [voice]);
            && outer == stack
            && Read(back + rest, voice) == Read(rest, if stack == [] then voice else stack[|stack| - 1])
  {
    hide Read, Vox;
    var all := stack + [voice];
    assert all[..|stack|] == stack;
    if stack != [] && stack[|stack| - 1] != voice {
      ReadVox(stack[|stack| - 1], rest, voice);
    } else {
      assert "" + rest == rest;
    }
  }

  /** The voice in force after a node: only the outermost element does not restore it. */
  function After(node: Node, stack: seq<nat>, config: Config): nat {
    if stack == [] && node.Element? then Inside(config.engineVoice, node.attributes, config) else Current(stack, config)
  }

  lemma Regroup(u: string, v: string, w: string, x: string, y: string, z: string)
    ensures u + v + w + x + y + z == u + (v + (w + (x + (y + z))))
  {
  }

  lemma RegroupTokens(u: seq<Token>, v: seq<Token>, w: seq<Token>, z: seq<Token>)
    ensures u + (v + (w + z)) == u + v + w + z
  {
  }

  lemma {:induction false} NodeIsRead(node: Node, stack: seq<nat>, rest: string, config: Config)
    requires Plain(node) && |stack| + Depth(node) <= STACK_SIZE
    ensures Walk(node, stack, config).1 == stack
    ensures Read(Walk(node, stack, config).0 + rest, Current(stack, config)) ==
            Meaning(node, Current(stack, config), config) + Read(rest, After(node, stack, config))
    decreases node, 0
  {
    hide Read, Pushed, Popped, StartOf, EndOf, StartMeaning, EndMeaning, TextOut, TextMeaning, Inside, WalkAll;
    hide MeaningAll;
    match node
    case Text(text) => TextIsRead(text, rest, Current(stack, config), config);
    case Element(name, attributes, children) =>
      var voice := Inside(Current(stack, config), attributes, config);
      var (vox, inner) := Pushed(stack, attributes, config);
      var (body, after) := WalkAll(children, inner, config);
      var (back, outer) := Popped(after);
      var start, end := StartOf(name, attributes), EndOf(name);
      PushIsRead(stack, attributes, start + (body + (end + (back + rest))), config);
      StartIsRead(name, attributes, body + (end + (back + rest)), voice);
      NodesAreRead(children, inner, end + (back + rest), config);
      EndIsRead(name, back + rest, voice);
      PopIsRead(stack, voice, rest);
      Regroup(vox, start, body, end, back, rest);
      RegroupTokens(StartMeaning(name, attributes), MeaningAll(children, voice, config), EndMeaning(name),
                    Read(rest, After(node, stack, config)));
  }

  lemma {:induction false} NodesAreRead(nodes: seq<Node>, stack: seq<nat>, rest: string, config: Config)
    requires PlainAll(nodes) && stack != [] && |stack| + DepthAll(nodes) <= STACK_SIZE
    ensures WalkAll(nodes, stack, config).1 == stack
    ensures Read(WalkAll(nodes, stack, config).0 + rest, Current(stack, config)) ==
            MeaningAll(nodes, Current(stack, config), config) + Read(rest, Current(stack, config))
    decreases nodes, 1
  {
    hide Read, Walk, Meaning, Current;
    if nodes == [] {
      assert "" + rest == rest;
    } else {
      var first, others := Walk(nodes[0], stack, config).0, WalkAll(nodes[1..], stack, config).0;
      NodeIsRead(nodes[0], stack, others + rest, config);
      NodesAreRead(nodes[1..], stack, rest, config);
      assert first + others + rest == first + (others + rest);
    }
  }

  // ---------------------------------------------------------------- documents with a closing brace in an argument

  lemma SameFront(front: seq<Token>, a: seq<Token>, b: seq<Token>)
    requires a != b
    ensures front + a != front + b
  {
    assert (front + a)[|front|..] == a && (front + b)[|front|..] == b;
  }

  /** Whatever follows it, a node that is not plain is not read as what it means. */
  lemma {:induction false} NodeIsMisread(node: Node, stack: seq<nat>, rest: string, config: Config, more: seq<Token>)
    requires !Plain(node) && |stack| + Depth(node) <= STACK_SIZE
    ensures Read(Walk(node, stack, config).0 + rest, Current(stack, config)) !=
            Meaning(node, Current(stack, config), config) + more
    decreases node, 0
  {
    hide Read, Pushed, Popped, StartOf, EndOf, StartMeaning, EndMeaning, Inside, WalkAll, MeaningAll, Argument;
    var (name, attributes, children) := (node.name, node.attributes, node.children);
    var voice := Inside(Current(stack, config), attributes, config);
    var (vox, inner) := Pushed(stack, attributes, config);
    var (body, after) := WalkAll(children, inner, config);
    var (back, outer) := Popped(after);
    var start, end := StartOf(name, attributes), EndOf(name);
    var startMeaning, meaning, endMeaning :=
      StartMeaning(name, attributes), MeaningAll(children, voice, config), EndMeaning(name);
    var tail := end + (back + rest);
    Regroup(vox, start, body, end, back, rest);
    RegroupTokens(startMeaning, meaning, endMeaning, more);
    PushIsRead(stack, attributes, start + (body + tail), config);
    if '}' in Argument(name, attributes) {
      StartIsMisread(name, attributes, body + tail, voice, meaning + (endMeaning + more));
    } else {
      StartIsRead(name, attributes, body + tail, voice);
      NodesAreMisread(children, inner, tail, config, endMeaning + more);
      SameFront(startMeaning, Read(body + tail, voice), meaning + (endMeaning + more));
    }
  }

  lemma {:induction false} NodesAreMisread(nodes: seq<Node>, stack: seq<nat>, rest: string, config: Config,
                                           more: seq<Token>)
    requires !PlainAll(nodes) && stack != [] && |stack| + DepthAll(nodes) <= STACK_SIZE
    ensures Read(WalkAll(nodes, stack, config).0 + rest, Current(stack, config)) !=
            MeaningAll(nodes, Current(stack, config), config) + more
    decreases nodes, 1
  {
    hide Read, Walk, Meaning, Current;
    var voice := Current(stack, config);
    var first, others := Walk(nodes[0], stack, config).0, WalkAll(nodes[1..], stack, config).0;
    var meaning, others' := Meaning(nodes[0], voice, config), MeaningAll(nodes[1..], voice, config);
    Reassociate(meaning, others', more);
    if Plain(nodes[0]) {
      Reassociate(first, others, rest);
      NodeIsRead(nodes[0], stack, others + rest, config);
      AfterChild(nodes[0], stack, config);
      NodesAreMisread(nodes[1..], stack, rest, config, more);
      SameFront(meaning, Read(others + rest, voice), others' + more);
    } else {
      var last := WalkAll(nodes[1..], Walk(nodes[0], stack, config).1, config).0;
      Reassociate(first, last, rest);
      NodeIsMisread(nodes[0], stack, last + rest, config, others' + more);
    }
  }

  lemma AfterChild(node: Node, stack: seq<nat>, config: Config)
    requires stack != []
    ensures After(node, stack, config) == Current(stack, config)
  {
  }

  /** A document of at most 32 levels: what the engine reads is what the document means, every text under the voice of
      its nearest language for which there is one, else the engine's, exactly if no printed attribute value holds a
      closing brace. */
  lemma SpokenUnderNearestLanguage(root: Node, config: Config)
    requires Depth(root) <= 32
    ensures Read(Walk(root, [], config).0, config.engineVoice) == Meaning(root, config.engineVoice, config) <==>
            Plain(root)
    ensures Plain(root) ==> Walk(root, [], config).1 == []
  {
    hide Walk, Meaning, Read, Plain;
    var out := Walk(root, [], config).0;
    assert out + "" == out;
    if Plain(root) {
      NodeIsRead(root, [], "", config);
      ReadEnd(After(root, [], config));
      assert Meaning(root, config.engineVoice, config) + [] == Meaning(root, config.engineVoice, config);
    } else {
      NodeIsMisread(root, [], "", config, []);
      assert Meaning(root, config.engineVoice, config) + [] == Meaning(root, config.engineVoice, config);
    }
  }

  lemma ReadEnd(voice: nat)
    ensures Read("", voice) == []
  {
  }

  // ---------------------------------------------------------------- attributes and languages

  lemma OwnValue(attributes: seq<Attribute>, i: nat)
    requires i < |attributes| && forall j | 0 <= j < i :: attributes[j].name != attributes[i].name
    ensures HasAttribute(attributes, attributes[i].name)
    ensures ValueOf(attributes, attributes[i].name) == attributes[i].value
  {
    AttributeIs(attributes, attributes[i].name, i);
    hide AttributeIndex;
  }

  lemma {:induction false} AttributeIs(attributes: seq<Attribute>, name: string, i: nat)
    requires i <= |attributes| && (i < |attributes| ==> attributes[i].name == name)
    requires forall j | 0 <= j < i :: attributes[j].name != name
    ensures AttributeIndex(attributes, name) == i
  {
    if i > 0 {
      AttributeIs(attributes[1..], name, i - 1);
    }
  }

  /** The three attributes of say-as reach the engine in this order; without a format the detail is dropped, and without
      the first one everything. */
  lemma SayAsIsTold(a: string, f: string, d: string)
    ensures var three := [Attribute("interpret-as", a), Attribute("format", f), Attribute("detail", d)];
            && StartMeaning("say-as", three) == [Obey("sayas<", a + " " + f + " " + d)]
            && StartMeaning("say-as", [three[0], three[2]]) == [Obey("sayas<", a + "  ")]
            && StartMeaning("say-as", [three[1], three[2]]) == [Obey("sayas<", "  ")]
  {
    var three := [Attribute("interpret-as", a), Attribute("format", f), Attribute("detail", d)];
    OwnValue(three, 0);
    OwnValue(three, 1);
    OwnValue(three, 2);
    OwnValue([three[0], three[2]], 0);
    OwnValue([three[0], three[2]], 1);
    AttributeIs([three[0], three[2]], "format", 2);
    AttributeIs([three[1], three[2]], "interpret-as", 2);
    hide AttributeIndex;
    assert a + "  " == a + " " + "" + " " + "" && "  " == "" + " " + "" + " " + "";
  }

  /** A text inside elements, the outermost first, each with a language or without. */
  function Nested(langs: seq<string>, text: string): Node {
    if langs == [] then Text(text)
    else Element("s", if langs[0] == "" then [] else [Attribute("xml:lang", langs[0])], [Nested(langs[1..], text)])
  }

  /** The voice of the innermost language for which there is one, else the one given. */
  function NearestVoice(langs: seq<string>, voice: int, config: Config): int {
    if langs == [] then voice
    else
      var n := |langs| - 1;
      if langs[n] != "" && config.findVoice(langs[n]) >= 0 then config.findVoice(langs[n])
      else NearestVoice(langs[..n], voice, config)
  }

  lemma {:induction false} NearestOfOuter(langs: seq<string>, voice: int, config: Config)
    requires langs != []
    ensures var first := if langs[0] != "" then config.findVoice(langs[0]) else -1;
      NearestVoice(langs, voice, config) == NearestVoice(langs[1..], if first >= 0 then first else voice, config)
  {
    var n := |langs| - 1;
    if n > 0 {
      NearestOfOuter(langs[..n], voice, config);
      assert langs[..n][1..] == langs[1..][..n - 1];
    }
  }

  lemma InsideIs(lang: string, voice: nat, config: Config)
    ensures Inside(voice, [], config) == voice
    ensures Inside(voice, [Attribute("xml:lang", lang)], config) ==
            if config.findVoice(lang) >= 0 then config.findVoice(lang) else voice
  {
    OwnValue([Attribute("xml:lang", lang)], 0);
    AttributeIs([], LANG, 0);
    hide AttributeIndex;
  }

  /** A text means what it says under the voice of the nearest language around it for which there is one. */
  lemma {:induction false} TextUnderLanguages(langs: seq<string>, text: string, voice: nat, config: Config)
    ensures NearestVoice(langs, voice, config) >= 0
    ensures Meaning(Nested(langs, text), voice, config) == TextMeaning(text, NearestVoice(langs, voice, config), config)
  {
    hide TextMeaning, Inside;
    if langs != [] {
      var inner := Inside(voice, Nested(langs, text).attributes, config);
      InsideIs(langs[0], voice, config);
      NearestOfOuter(langs, voice, config);
      TextUnderLanguages(langs[1..], text, inner, config);
      PlainElement(Nested(langs, text).attributes, Nested(langs[1..], text), voice, config);
    }
  }

  lemma PlainElement(attributes: seq<Attribute>, child: Node, voice: nat, config: Config)
    ensures Meaning(Element("s", attributes, [child]), voice, config) ==
            Meaning(child, Inside(voice, attributes, config), config)
  {
    var inner := Inside(voice, attributes, config);
    hide Inside;
    assert [child][1..] == [];
    assert MeaningAll([child], inner, config) == Meaning(child, inner, config) + MeaningAll([], inner, config);
    assert StartMeaning("s", attributes) == [] && EndMeaning("s") == [];
    assert [] + (Meaning(child, inner, config) + []) + [] == Meaning(child, inner, config);
  }

  /** With nothing to wrap or drop a text says itself, whatever its characters. */
  lemma {:induction false} TextSaysItself(text: string, voice: nat, config: Config)
    requires config.mode.PunctNone? && forall c | c in text :: c == '\\' || c !in config.noIntonationList
    ensures TextMeaning(text, voice, config) == seq(|text|, i requires 0 <= i < |text| => Say(text[i], voice))
  {
    if text != "" {
      assert text[0] in text;
      TextSaysItself(text[1..], voice, config);
    }
  }
}
