/** SSML to the commands of the Baratinoo engine, as src/modules/baratinoo.c translates it. `BaratinooSpec` says what
    the callbacks of the parser add to the buffer, `Baratinoo` is the parser state they change. */
module BaratinooSpec {
  import opened Strings

  datatype PunctuationMode = PunctNone | PunctSome | PunctMost | PunctAll

  /** Settings, and what GLib and baratinoo_find_voice answer. */
  datatype Config = Config(
    mode: PunctuationMode,
    punctuationList: string,
    intonationList: string,
    noIntonationList: string,
    isAlnum: char -> bool,
    isPunct: char -> bool,
    findVoice: string -> int,
    engineVoice: nat)

  datatype Attribute = Attribute(name: string, value: string)

  datatype Node = Text(text: string) | Element(name: string, attributes: seq<Attribute>, children: seq<Node>)

  const STACK_SIZE := 32
  const LANG := "xml:lang"

  function Command(name: string, arg: string): string {
    "\\" + name + "{" + arg + "}"
  }

  function Vox(voice: nat): string {
    Command("vox", Decimal(voice))
  }

  /** attribute_index: the first of that name, or the number of attributes. */
  function AttributeIndex(attributes: seq<Attribute>, name: string): (i: nat)
    ensures i <= |attributes| && (i < |attributes| ==> attributes[i].name == name)
  {
    if attributes == [] || attributes[0].name == name then 0 else 1 + AttributeIndex(attributes[1..], name)
  }

  function HasAttribute(attributes: seq<Attribute>, name: string): bool {
    AttributeIndex(attributes, name) < |attributes|
  }

  function ValueOf(attributes: seq<Attribute>, name: string): string {
    if HasAttribute(attributes, name) then attributes[AttributeIndex(attributes, name)].value else ""
  }

  // ---------------------------------------------------------------- voices

  /** The voice in force where the innermost open element has the voices `stack`. */
  function Current(stack: seq<nat>, config: Config): nat {
    if stack == [] then config.engineVoice else stack[|stack| - 1]
  }

  /** The voice inside an element: that of its language, if it has one and a voice is found. */
  function Inside(voice: nat, attributes: seq<Attribute>, config: Config): nat {
    if HasAttribute(attributes, LANG) && config.findVoice(ValueOf(attributes, LANG)) >= 0 then
      config.findVoice(ValueOf(attributes, LANG))
    else voice
  }

  /** What push_lang prints, and what it pushes. */
  function Pushed(stack: seq<nat>, attributes: seq<Attribute>, config: Config): (string, seq<nat>) {
    var was := Current(stack, config);
    var voice := Inside(was, attributes, config);
    (if voice != was then Vox(voice) else "", if |stack| >= STACK_SIZE then stack else stack + [voice])
  }

  /** What pop_lang prints, and what it leaves. */
  function Popped(stack: seq<nat>): (string, seq<nat>) {
    if stack == [] then ("", stack)
    else
      var n := |stack| - 1;
      (if n > 0 && stack[n - 1] != stack[n] then Vox(stack[n - 1]) else "", stack[..n])
  }

  // ---------------------------------------------------------------- elements

  function SayAs(attributes: seq<Attribute>): string {
    var as_ := ValueOf(attributes, "interpret-as");
    var fmt := if HasAttribute(attributes, "interpret-as") then ValueOf(attributes, "format") else "";
    var detail := if HasAttribute(attributes, "interpret-as") && HasAttribute(attributes, "format")
      then ValueOf(attributes, "detail") else "";
    as_ + " " + fmt + " " + detail
  }

  /** What the start of an element prints, besides its voice. */
  function StartOf(name: string, attributes: seq<Attribute>): string {
    if name == "mark" then Command("mark", ValueOf(attributes, "name"))
    else if name == "emphasis" then Command("emph<", ValueOf(attributes, "level"))
    else if name == "say-as" then Command("sayas<", SayAs(attributes))
    else ""
  }

  function EndOf(name: string): string {
    if name == "emphasis" then Command("emph>", "")
    else if name == "say-as" then Command("sayas>", "")
    else ""
  }

  // ---------------------------------------------------------------- text

  const ESCAPED_BACKSLASH := "\\\\{}"

  predicate SaidAsChar(c: char, config: Config) {
    || ((config.mode.PunctSome? || config.mode.PunctMost?) && c in config.punctuationList)
    || (config.mode.PunctAll? && config.isPunct(c))
  }

  predicate NotSaid(c: char, config: Config) {
    config.mode.PunctNone? && c in config.noIntonationList
  }

  /** A punctuation character that is spoken by name is repeated for the intonation. */
  predicate Repeated(c: char, next: char, config: Config) {
    c in config.intonationList && !config.isAlnum(next) && !config.isPunct(next)
  }

  function CharOut(c: char, next: char, config: Config): string {
    if c == '\\' then ESCAPED_BACKSLASH
    else if SaidAsChar(c, config) then
      Command("sayas<", "characters") + [c] + Command("sayas>", "") + if Repeated(c, next, config) then [c, ' '] else ""
    else if NotSaid(c, config) then ""
    else [c]
  }

  function NextChar(text: string): char
    requires text != ""
  {
    if |text| > 1 then text[1] else '\n'
  }

  function TextOut(text: string, config: Config): string {
    if text == "" then "" else CharOut(text[0], NextChar(text), config) + TextOut(text[1..], config)
  }

  // ---------------------------------------------------------------- documents

  /** What the callbacks for a node print, and the stack they leave. */
  function Walk(node: Node, stack: seq<nat>, config: Config): (string, seq<nat>)
    decreases node, 0
  {
    match node
    case Text(text) => (TextOut(text, config), stack)
    case Element(name, attributes, children) =>
      var (vox, inner) := Pushed(stack, attributes, config);
      var (body, after) := WalkAll(children, inner, config);
      var (back, outer) := Popped(after);
      (vox + StartOf(name, attributes) + body + EndOf(name) + back, outer)
  }

  lemma WalkStep(node: Node, stack: seq<nat>, config: Config)
    ensures Walk(node, stack, config) ==
            match node
            case Text(text) => (TextOut(text, config), stack)
            case Element(name, attributes, children) =>
              var (vox, inner) := Pushed(stack, attributes, config);
              var (body, after) := WalkAll(children, inner, config);
              var (back, outer) := Popped(after);
              (vox + StartOf(name, attributes) + body + EndOf(name) + back, outer)
  {
  }

  lemma WalkAllStep(nodes: seq<Node>, stack: seq<nat>, config: Config)
    ensures WalkAll(nodes, stack, config) ==
            if nodes == [] then ("", stack)
            else
              var (first, after) := Walk(nodes[0], stack, config);
              var (rest, end) := WalkAll(nodes[1..], after, config);
              (first + rest, end)
  {
  }

  function WalkAll(nodes: seq<Node>, stack: seq<nat>, config: Config): (string, seq<nat>)
    decreases nodes, 1
  {
    if nodes == [] then ("", stack)
    else
      var (first, after) := Walk(nodes[0], stack, config);
      var (rest, end) := WalkAll(nodes[1..], after, config);
      (first + rest, end)
  }
}

module Baratinoo {
  import opened BaratinooSpec

  /** SsmlPraserState */
  class State {
    const config: Config
    var buffer: string
    var voiceStack: array<nat>
    var voiceStackLen: nat

    ghost predicate Valid()
      reads this
    {
      voiceStack.Length == STACK_SIZE && voiceStackLen <= STACK_SIZE
    }

    ghost function Stack(): seq<nat>
      requires Valid()
      reads this, voiceStack
    {
      voiceStack[..voiceStackLen]
    }

    constructor (config: Config)
      ensures Valid() && Stack() == [] && buffer == "" && this.config == config && fresh(voiceStack)
    {
      this.config := config;
      buffer, voiceStack, voiceStackLen := "", new nat[STACK_SIZE](i => 0), 0;
    }

    /** ssml2baratinoo_push_lang */
    method PushLang(hasLang: bool, lang: string)
      requires Valid()
      modifies this`buffer, this`voiceStackLen, voiceStack
      ensures Valid()
      ensures forall attributes: seq<Attribute> |
                HasAttribute(attributes, LANG) == hasLang && (hasLang ==> ValueOf(attributes, LANG) == lang) ::
                var (out, stack) := Pushed(old(Stack()), attributes, config);
                buffer == old(buffer) + out && Stack() == stack
    {
      var voice: nat;
      if voiceStackLen > 0 {
        voice := voiceStack[voiceStackLen - 1];
      } else {
        voice := config.engineVoice;
      }
      if hasLang {
        var newVoice := config.findVoice(lang);
        if newVoice >= 0 && newVoice != voice {
          buffer := buffer + Vox(newVoice);
          voice := newVoice;
        }
      }
      if voiceStackLen >= STACK_SIZE {
      } else {
        voiceStack[voiceStackLen] := voice;
        voiceStackLen := voiceStackLen + 1;
      }
    }

    /** ssml2baratinoo_pop_lang */
    method PopLang()
      requires Valid()
      modifies this`buffer, this`voiceStackLen
      ensures Valid()
      ensures var (out, stack) := Popped(old(Stack())); buffer == old(buffer) + out && Stack() == stack
    {
      if voiceStackLen > 0 {
        voiceStackLen := voiceStackLen - 1;
        var curVoice := voiceStack[voiceStackLen];
        if voiceStackLen > 0 {
          var newVoice := voiceStack[voiceStackLen - 1];
          if newVoice != curVoice {
            buffer := buffer + Vox(newVoice);
          }
        }
      }
    }

    /** ssml2baratinoo_start_element */
    method StartElement(element: string, attributes: seq<Attribute>)
      requires Valid()
      modifies this`buffer, this`voiceStackLen, voiceStack
      ensures Valid()
      ensures var (out, stack) := Pushed(old(Stack()), attributes, config);
              buffer == old(buffer) + out + StartOf(element, attributes) && Stack() == stack
    {
      var langId := AttributeIndex(attributes, LANG);
      PushLang(langId < |attributes|, if langId < |attributes| then attributes[langId].value else "");
      if element == "mark" {
        buffer := buffer + Command("mark", ValueOf(attributes, "name"));
      } else if element == "emphasis" {
        buffer := buffer + Command("emph<", ValueOf(attributes, "level"));
      } else if element == "say-as" {
        var as_ := ValueOf(attributes, "interpret-as");
        var fmt := ValueOf(attributes, "format");
        var detail := ValueOf(attributes, "detail");
        if !HasAttribute(attributes, "interpret-as") {
          fmt, detail := "", "";
        } else if !HasAttribute(attributes, "format") && HasAttribute(attributes, "detail") {
          detail := "";
        }
        buffer := buffer + Command("sayas<", as_ + " " + fmt + " " + detail);
      }
    }

    /** ssml2baratinoo_end_element */
    method EndElement(element: string)
      requires Valid()
      modifies this`buffer, this`voiceStackLen
      ensures Valid()
      ensures var (out, stack) := Popped(old(Stack()));
              buffer == old(buffer) + EndOf(element) + out && Stack() == stack
    {
      if element == "emphasis" {
        buffer := buffer + Command("emph>", "");
      } else if element == "say-as" {
        buffer := buffer + Command("sayas>", "");
      }
      PopLang();
    }

    /** One turn of the loop of ssml2baratinoo_text. */
    method TextChar(ch: char, chNext: char)
      requires Valid()
      modifies this`buffer
      ensures Valid() && Stack() == old(Stack())
      ensures buffer == old(buffer) + CharOut(ch, chNext, config)
    {
      Wrapping();
      hide Command;
      if ch == '\\' {
        buffer := buffer + "\\\\{}";
      } else {
        var sayAsChar := ((config.mode.PunctSome? || config.mode.PunctMost?) && ch in config.punctuationList)
                         || (config.mode.PunctAll? && config.isPunct(ch));
        var doNotSay := config.mode.PunctNone? && ch in config.noIntonationList;
        var out := "";
        if sayAsChar {
          out := out + "\\sayas<{characters}";
        }
        if !doNotSay {
          out := out + [ch];
        }
        if sayAsChar {
          out := out + "\\sayas>{}";
          if ch in config.intonationList && !config.isAlnum(chNext) && !config.isPunct(chNext) {
            out := out + [ch];
            out := out + " ";
          }
        }
        assert out == CharOut(ch, chNext, config);
        buffer := buffer + out;
      }
    }

    /** ssml2baratinoo_text */
    method TextNode(text: string)
      requires Valid()
      modifies this`buffer
      ensures Valid() && Stack() == old(Stack())
      ensures buffer == old(buffer) + TextOut(text, config)
    {
      hide TextOut, CharOut, NextChar;
      var p := 0;
      assert text[0..] == text;
      while p < |text|
        invariant Valid() && Stack() == old(Stack())
        invariant p <= |text| && old(buffer) + TextOut(text, config) == buffer + TextOut(text[p..], config)
      {
        TextStep(text, p, config);
        TextChar(text[p], if p + 1 < |text| then text[p + 1] else '\n');
        p := p + 1;
      }
      TextStep(text, p, config);
    }

    /** The parser calls back for a node. */
    method Parse(node: Node)
      requires Valid()
      modifies this`buffer, this`voiceStackLen, voiceStack
      ensures Valid()
      ensures buffer == old(buffer) + Walk(node, old(Stack()), config).0
      ensures Stack() == Walk(node, old(Stack()), config).1
      decreases node, 0
    {
      hide Walk, WalkAll, Pushed, Popped, StartOf, EndOf, TextOut, Valid, Stack;
      WalkStep(node, Stack(), config);
      match node
      case Text(text) =>
        TextNode(text);
      case Element(name, attributes, children) =>
        ghost var was, stack := buffer, Stack();
        StartElement(name, attributes);
        ParseAll(children);
        EndElement(name);
        ghost var (vox, inner) := Pushed(stack, attributes, config);
        ghost var (body, after) := WalkAll(children, inner, config);
        Joined(was, vox, StartOf(name, attributes), body, EndOf(name), Popped(after).0);
    }

    method ParseAll(nodes: seq<Node>)
      requires Valid()
      modifies this`buffer, this`voiceStackLen, voiceStack
      ensures Valid()
      ensures buffer == old(buffer) + WalkAll(nodes, old(Stack()), config).0
      ensures Stack() == WalkAll(nodes, old(Stack()), config).1
      decreases nodes, 1
    {
      hide Walk, WalkAll, Valid, Stack;
      WalkAllStep(nodes, Stack(), config);
      if nodes != [] {
        Parse(nodes[0]);
        ParseAll(nodes[1..]);
      }
    }
  }

  lemma Wrapping()
    ensures Command("sayas<", "characters") == "\\sayas<{characters}" && Command("sayas>", "") == "\\sayas>{}"
  {
  }

  lemma Joined(b: string, u: string, v: string, w: string, x: string, y: string)
    ensures b + u + v + w + x + y == b + (u + v + w + x + y)
  {
  }

  lemma TextStep(text: string, p: nat, config: Config)
    requires p <= |text|
    ensures TextOut(text[p..], config) ==
            if p == |text| then ""
            else CharOut(text[p], if p + 1 < |text| then text[p + 1] else '\n', config) + TextOut(text[p + 1..], config)
  {
    if p < |text| {
      assert text[p..][1..] == text[p + 1..];
    }
  }
}
