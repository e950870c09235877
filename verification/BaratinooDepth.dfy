/** The voice stack of 32 entries is the bound: deeper documents may be read with a wrong voice. */
module BaratinooDepth {
  import opened Collections
  import opened BaratinooSpec
  import opened BaratinooLaws

  /** Some nodes inside k elements without a language. */
  function Nest(k: nat, nodes: seq<Node>): seq<Node>
    decreases k
  {
    if k == 0 then nodes else [Element("s", [], Nest(k - 1, nodes))]
  }

  predicate Uniform(stack: seq<nat>, voice: nat) {
    forall i | 0 <= i < |stack| :: stack[i] == voice
  }

  /** What the stack is at the innermost of k elements. */
  function Filled(stack: seq<nat>, k: nat, voice: nat): seq<nat>
    decreases k
  {
    if k == 0 then stack else Filled(if |stack| >= STACK_SIZE then stack else stack + [voice], k - 1, voice)
  }

  lemma {:induction false} FilledIsUniform(stack: seq<nat>, k: nat, voice: nat)
    requires Uniform(stack, voice) && |stack| <= STACK_SIZE
    ensures Uniform(Filled(stack, k, voice), voice) && |Filled(stack, k, voice)| == Min(STACK_SIZE, |stack| + k)
    decreases k
  {
    if k > 0 {
      FilledIsUniform(if |stack| >= STACK_SIZE then stack else stack + [voice], k - 1, voice);
    }
  }

  lemma QuietPush(stack: seq<nat>, config: Config)
    requires Uniform(stack, config.engineVoice)
    ensures Pushed(stack, [], config) ==
            ("", if |stack| >= STACK_SIZE then stack else stack + [config.engineVoice])
  {
  }

  lemma QuietPop(stack: seq<nat>, voice: nat)
    requires Uniform(stack, voice)
    ensures Popped(stack).0 == "" && Uniform(Popped(stack).1, voice)
  {
  }

  lemma WalkOne(node: Node, stack: seq<nat>, config: Config)
    ensures WalkAll([node], stack, config) == Walk(node, stack, config)
  {
    hide Walk, WalkAll;
    WalkAllStep([node], stack, config);
    assert [node][1..] == [];
    WalkAllStep([], Walk(node, stack, config).1, config);
    assert Walk(node, stack, config).0 + "" == Walk(node, stack, config).0;
  }

  lemma WalkQuiet(children: seq<Node>, stack: seq<nat>, config: Config)
    requires Uniform(stack, config.engineVoice)
    requires var inner := if |stack| >= STACK_SIZE then stack else stack + [config.engineVoice];
             Uniform(WalkAll(children, inner, config).1, config.engineVoice)
    ensures var inner := if |stack| >= STACK_SIZE then stack else stack + [config.engineVoice];
            var w := WalkAll([Element("s", [], children)], stack, config);
            w.0 == WalkAll(children, inner, config).0 && Uniform(w.1, config.engineVoice)
  {
    hide Walk, WalkAll, Pushed, Popped, Uniform;
    var node := Element("s", [], children);
    WalkOne(node, stack, config);
    WalkStep(node, stack, config);
    QuietPush(stack, config);
    var inner := if |stack| >= STACK_SIZE then stack else stack + [config.engineVoice];
    var (body, after) := WalkAll(children, inner, config);
    QuietPop(after, config.engineVoice);
    Empties(body);
  }

  lemma Empties(body: string)
    ensures "" + "" + body + "" + "" == body
  {
  }

  /** Elements without a language around some nodes print nothing, while the stack holds the engine's voice only. */
  lemma {:induction false} WalkNest(k: nat, nodes: seq<Node>, stack: seq<nat>, config: Config)
    requires Uniform(stack, config.engineVoice)
    requires Uniform(WalkAll(nodes, Filled(stack, k, config.engineVoice), config).1, config.engineVoice)
    ensures var w := WalkAll(Nest(k, nodes), stack, config);
            w.0 == WalkAll(nodes, Filled(stack, k, config.engineVoice), config).0 && Uniform(w.1, config.engineVoice)
    decreases k
  {
    hide WalkAll;
    if k > 0 {
      var inner := if |stack| >= STACK_SIZE then stack else stack + [config.engineVoice];
      WalkNest(k - 1, nodes, inner, config);
      WalkQuiet(Nest(k - 1, nodes), stack, config);
    }
  }

  /** An element with a language deep in a document, and a backslash behind it. */
  function Spoiler(m: nat, lang: string): seq<Node> {
    [Element("s", [Attribute(LANG, lang)], Nest(m, [])), Text("\\")]
  }

  /** A document of more than 32 levels. */
  function DeepDocument(n: nat, lang: string): Node
    requires n > STACK_SIZE
  {
    Element("s", [], Nest(STACK_SIZE - 1, Spoiler(n - STACK_SIZE - 1, lang)))
  }

  lemma LangIs(lang: string, voice: nat, config: Config)
    requires config.findVoice(lang) >= 0
    ensures Inside(voice, [Attribute(LANG, lang)], config) == config.findVoice(lang)
  {
    var attributes := [Attribute(LANG, lang)];
    assert AttributeIndex(attributes, LANG) == 0;
  }

  lemma BackslashOut(config: Config)
    ensures TextOut("\\", config) == ESCAPED_BACKSLASH
    ensures forall v :: TextMeaning("\\", v, config) == [Say('\\', v)]
  {
    assert "\\"[1..] == "";
    assert ESCAPED_BACKSLASH + "" == ESCAPED_BACKSLASH;
    forall v
      ensures TextMeaning("\\", v, config) == [Say('\\', v)]
    {
      assert [Say('\\', v)] + [] == [Say('\\', v)];
    }
  }

  /** Where the stack is full the element prints its voice and is not pushed: nothing takes the voice back. */
  lemma WalkSpoiler(m: nat, lang: string, stack: seq<nat>, config: Config)
    requires Uniform(stack, config.engineVoice) && |stack| == STACK_SIZE
    requires config.findVoice(lang) >= 0 && config.findVoice(lang) != config.engineVoice
    ensures var w := WalkAll(Spoiler(m, lang), stack, config);
            w.0 == Vox(config.findVoice(lang)) + ESCAPED_BACKSLASH && Uniform(w.1, config.engineVoice)
  {
    var attributes := [Attribute(LANG, lang)];
    var node, text := Element("s", attributes, Nest(m, [])), Text("\\");
    var vox := Vox(config.findVoice(lang));
    LangIs(lang, config.engineVoice, config);
    assert Pushed(stack, attributes, config) == (vox, stack);
    FilledIsUniform(stack, m, config.engineVoice);
    WalkAllStep([], Filled(stack, m, config.engineVoice), config);
    WalkNest(m, [], stack, config);
    WalkStep(node, stack, config);
    var after := WalkAll(Nest(m, []), stack, config).1;
    QuietPop(after, config.engineVoice);
    hide Walk, WalkAll, Pushed, Popped, Uniform, Vox, TextOut, Filled;
    assert vox + "" + "" + "" + "" == vox;
    WalkAllStep(Spoiler(m, lang), stack, config);
    assert Spoiler(m, lang)[1..] == [text];
    WalkOne(text, Popped(after).1, config);
    WalkStep(text, Popped(after).1, config);
    BackslashOut(config);
  }

  lemma WalkDeep(n: nat, lang: string, config: Config)
    requires n > STACK_SIZE && config.findVoice(lang) >= 0 && config.findVoice(lang) != config.engineVoice
    ensures Walk(DeepDocument(n, lang), [], config).0 == Vox(config.findVoice(lang)) + ESCAPED_BACKSLASH
  {
    var m := n - STACK_SIZE - 1;
    var stack := [config.engineVoice];
    var nodes := Nest(STACK_SIZE - 1, Spoiler(m, lang));
    assert DeepDocument(n, lang) == Element("s", [], nodes);
    assert Uniform(stack, config.engineVoice) && [] + stack == stack && Uniform([], config.engineVoice);
    hide *;
    FilledIsUniform(stack, STACK_SIZE - 1, config.engineVoice);
    FullIsFull(Filled(stack, STACK_SIZE - 1, config.engineVoice));
    WalkSpoiler(m, lang, Filled(stack, STACK_SIZE - 1, config.engineVoice), config);
    WalkNest(STACK_SIZE - 1, Spoiler(m, lang), stack, config);
    WalkQuiet(nodes, [], config);
    WalkOne(DeepDocument(n, lang), [], config);
  }

  lemma FullIsFull(stack: seq<nat>)
    requires |stack| == Min(STACK_SIZE, 1 + (STACK_SIZE - 1))
    ensures |stack| == STACK_SIZE
  {
  }

  lemma {:induction false} MeaningOfNest(k: nat, nodes: seq<Node>, voice: nat, config: Config)
    ensures MeaningAll(Nest(k, nodes), voice, config) == MeaningAll(nodes, voice, config)
    decreases k
  {
    if k > 0 {
      MeaningOfNest(k - 1, nodes, voice, config);
      MeaningOfOne(Nest(k - 1, nodes), voice, config);
    }
  }

  lemma MeaningOfOne(children: seq<Node>, voice: nat, config: Config)
    ensures MeaningAll([Element("s", [], children)], voice, config) == MeaningAll(children, voice, config)
    ensures Meaning(Element("s", [], children), voice, config) == MeaningAll(children, voice, config)
  {
    var node := Element("s", [], children);
    assert [node][1..] == [];
    var inner := MeaningAll(children, voice, config);
    assert Meaning(node, voice, config) == [] + inner + [] == inner;
    assert MeaningAll([node], voice, config) == Meaning(node, voice, config) + MeaningAll([], voice, config);
    assert inner + [] == inner;
  }

  lemma MeaningOfDeep(n: nat, lang: string, config: Config)
    requires n > STACK_SIZE
    ensures Meaning(DeepDocument(n, lang), config.engineVoice, config) == [Say('\\', config.engineVoice)]
  {
    var m := n - STACK_SIZE - 1;
    var nodes := Spoiler(m, lang);
    MeaningOfOne(Nest(STACK_SIZE - 1, nodes), config.engineVoice, config);
    MeaningOfNest(STACK_SIZE - 1, nodes, config.engineVoice, config);
    MeaningOfSpoiler(m, lang, config.engineVoice, config);
    hide MeaningAll, Meaning, Nest;
  }

  lemma MeaningOfSpoiler(m: nat, lang: string, voice: nat, config: Config)
    ensures MeaningAll(Spoiler(m, lang), voice, config) == [Say('\\', voice)]
  {
    var nodes := Spoiler(m, lang);
    var inner := Inside(voice, [Attribute(LANG, lang)], config);
    MeaningOfNest(m, [], inner, config);
    BackslashOut(config);
    hide Nest, TextMeaning, Inside;
    assert Meaning(nodes[0], voice, config) == [] + [] + [];
    assert nodes[1..] == [Text("\\")] && nodes[1..][1..] == [];
    var last := [Say('\\', voice)];
    assert MeaningAll(nodes[1..], voice, config) == last + [];
    assert [] + last == last && last + [] == last;
  }

  lemma {:induction false} NestIsPlain(k: nat, nodes: seq<Node>)
    requires PlainAll(nodes)
    ensures PlainAll(Nest(k, nodes)) && DepthAll(Nest(k, nodes)) == k + DepthAll(nodes)
    decreases k
  {
    if k > 0 {
      NestIsPlain(k - 1, nodes);
      OneIsPlain(Element("s", [], Nest(k - 1, nodes)));
    }
  }

  lemma OneIsPlain(node: Node)
    ensures PlainAll([node]) == Plain(node) && DepthAll([node]) == Depth(node)
  {
    assert [node][1..] == [];
  }

  lemma SpoilerIsPlain(m: nat, lang: string)
    ensures PlainAll(Spoiler(m, lang)) && DepthAll(Spoiler(m, lang)) == m + 1
  {
    NestIsPlain(m, []);
    var nodes := Spoiler(m, lang);
    hide Nest;
    assert nodes[1..] == [Text("\\")];
    OneIsPlain(Text("\\"));
    assert Plain(nodes[0]) && Depth(nodes[0]) == 1 + m;
  }

  lemma DeepIsPlain(n: nat, lang: string)
    requires n > STACK_SIZE
    ensures Plain(DeepDocument(n, lang)) && Depth(DeepDocument(n, lang)) == n
  {
    var nodes := Spoiler(n - STACK_SIZE - 1, lang);
    SpoilerIsPlain(n - STACK_SIZE - 1, lang);
    NestIsPlain(STACK_SIZE - 1, nodes);
    hide Nest, PlainAll, DepthAll, Spoiler;
  }

  /** Of every depth beyond 32 a document that is read with the wrong voice: an element deep in it has a language with
      a voice of its own, and the backslash behind the element is said with that voice, not with the engine's. */
  lemma DeepDocumentIsReadWrong(n: nat, lang: string, config: Config)
    requires n > STACK_SIZE && config.findVoice(lang) >= 0 && config.findVoice(lang) != config.engineVoice
    ensures var root := DeepDocument(n, lang);
            && Plain(root) && Depth(root) == n
            && Read(Walk(root, [], config).0, config.engineVoice) == [Say('\\', config.findVoice(lang))]
            && Meaning(root, config.engineVoice, config) == [Say('\\', config.engineVoice)]
  {
    var voice := config.findVoice(lang);
    DeepIsPlain(n, lang);
    MeaningOfDeep(n, lang, config);
    WalkDeep(n, lang, config);
    hide DeepDocument, Walk, Meaning, Read, Vox, Plain, Depth;
    ReadVox(voice, ESCAPED_BACKSLASH, config.engineVoice);
    ReadBackslash("", voice);
    assert ESCAPED_BACKSLASH + "" == ESCAPED_BACKSLASH;
    assert Read("", voice) == [] by {
      ReadNothing(voice);
    }
  }

  lemma ReadNothing(voice: nat)
    ensures Read("", voice) == []
  {
  }

  /** What the engine reads is what the document means. */
  predicate IsReadRight(root: Node, config: Config) {
    Read(Walk(root, [], config).0, config.engineVoice) == Meaning(root, config.engineVoice, config)
  }

  /** Where a second voice can be asked for all documents of a depth are read right exactly up to 32 levels. */
  lemma DepthBoundIsTight(n: nat, lang: string, config: Config)
    requires config.findVoice(lang) >= 0 && config.findVoice(lang) != config.engineVoice
    ensures (forall root | Plain(root) && Depth(root) == n :: IsReadRight(root, config)) <==> n <= 32
  {
    hide Plain, Depth, Read, Walk, Meaning, DeepDocument;
    if n <= STACK_SIZE {
      forall root | Plain(root) && Depth(root) == n
        ensures IsReadRight(root, config)
      {
        SpokenUnderNearestLanguage(root, config);
      }
    } else {
      DeepDocumentIsReadWrong(n, lang, config);
      assert !IsReadRight(DeepDocument(n, lang), config);
    }
  }
}
