/** module_strip_ssml of src/modules/module_utils.c: drop tags, decode the five entities. */
module SsmlStrip {

  /** The entity a text begins with and what it stands for, or nothing. */
  function Entity(s: string): (string, string) {
    if "&lt;" <= s then ("&lt;", "<")
    else if "&gt;" <= s then ("&gt;", ">")
    else if "&amp;" <= s then ("&amp;", "&")
    else if "&quot;" <= s then ("&quot;", "\"")
    else if "&apos;" <= s then ("&apos;", "'")
    else ("", "")
  }

  /** What is left of a text, read inside a tag if `omit`. */
  function Stripped(s: string, omit: bool): string {
    if s == [] then []
    else if s[0] == '<' then Stripped(s[1..], true)
    else if s[0] == '>' then Stripped(s[1..], false)
    else if omit then Stripped(s[1..], true)
    else
      var (e, c) := Entity(s);
      if e != "" then c + Stripped(s[|e|..], false) else [s[0]] + Stripped(s[1..], false)
  }

  lemma StrippedStep(s: string, i: nat, omit: bool)
    requires i <= |s|
    ensures Stripped(s[i..], omit) ==
            if i == |s| then ""
            else if s[i] == '<' then Stripped(s[i + 1..], true)
            else if s[i] == '>' then Stripped(s[i + 1..], false)
            else if omit then Stripped(s[i + 1..], true)
            else
              var (e, c) := Entity(s[i..]);
              if e != "" then c + Stripped(s[i + |e|..], false) else [s[i]] + Stripped(s[i + 1..], false)
  {
    if i < |s| {
      assert s[i..][1..] == s[i + 1..];
      var (e, c) := Entity(s[i..]);
      assert s[i..][|e|..] == s[i + |e|..];
    }
  }

  /** What the branches outside a tag write for a character, and how far they skip. */
  method Decode(rest: string) returns (c: char, skip: nat)
    requires rest != ""
    ensures var (e, d) := Entity(rest); if e != "" then [c] == d && skip == |e| - 1 else c == rest[0] && skip == 0
    ensures skip < |rest|
  {
    if "&lt;" <= rest {
      return '<', 3;
    } else if "&gt;" <= rest {
      return '>', 3;
    } else if "&amp;" <= rest {
      return '&', 4;
    } else if "&quot;" <= rest {
      return '"', 5;
    } else if "&apos;" <= rest {
      return '\'', 5;
    }
    return rest[0], 0;
  }

  /** module_strip_ssml */
  method StripSsml(message: string) returns (out: string)
    ensures out == Stripped(message, false)
  {
    hide Stripped, Entity;
    out := "";
    var i, omit := 0, false;
    assert message[0..] == message;
    while i < |message|
      invariant i <= |message|
      invariant Stripped(message, false) == out + Stripped(message[i..], omit)
    {
      StrippedStep(message, i, omit);
      if message[i] == '<' {
        omit := true;
      } else if message[i] == '>' {
        omit := false;
      } else if !omit {
        var c, skip := Decode(message[i..]);
        i := i + skip;
        Joined(out, c, Stripped(message[i + 1..], false));
        out := out + [c];
      }
      i := i + 1;
    }
    StrippedStep(message, i, omit);
  }

  lemma Joined(out: string, c: char, rest: string)
    ensures out + ([c] + rest) == out + [c] + rest
  {
  }

  // ---------------------------------------------------------------- how stripping goes over pieces

  predicate Special(c: char) {
    c == '<' || c == '>' || c == '&'
  }

  lemma StrippedPlain(c: char, x: string)
    requires !Special(c)
    ensures Stripped([c] + x, false) == [c] + Stripped(x, false)
  {
    assert ([c] + x)[1..] == x;
  }

  /** A tag without a `>` of its own vanishes. */
  lemma {:induction false} StrippedInTag(body: string, x: string)
    requires '>' !in body
    ensures Stripped(body + ">" + x, true) == Stripped(x, false)
  {
    if body == [] {
      assert body + ">" + x == ">" + x;
    } else {
      assert (body + ">" + x)[1..] == body[1..] + ">" + x;
      StrippedInTag(body[1..], x);
    }
  }

  lemma StrippedTag(tag: string, x: string)
    requires |tag| >= 2 && tag[0] == '<' && tag[|tag| - 1] == '>' && '>' !in tag[..|tag| - 1]
    ensures Stripped(tag + x, false) == Stripped(x, false)
  {
    var body := tag[1..|tag| - 1];
    assert tag + x == "<" + (body + ">" + x);
    StrippedInTag(body, x);
  }

  function Escape1(c: char): string {
    if c == '<' then "&lt;" else if c == '>' then "&gt;" else if c == '&' then "&amp;" else [c]
  }

  lemma StrippedEscape(c: char, x: string)
    ensures Stripped(Escape1(c) + x, false) == [c] + Stripped(x, false)
  {
    var e := Escape1(c);
    assert (e + x)[|e|..] == x;
    if Special(c) {
      assert e <= e + x && (e + x)[1] == e[1];
      assert Entity(e + x) == (e, [c]);
    } else {
      StrippedPlain(c, x);
    }
  }

  /** A text with the five characters that have an entity written so. */
  function Encoded(t: string): string {
    if t == "" then ""
    else
      (if t[0] == '<' then "&lt;" else if t[0] == '>' then "&gt;" else if t[0] == '&' then "&amp;"
       else if t[0] == '"' then "&quot;" else if t[0] == '\'' then "&apos;" else [t[0]])
      + Encoded(t[1..])
  }

  /** Written with entities any text is decoded to itself. */
  lemma {:induction false} EncodedIsDecoded(t: string)
    ensures Stripped(Encoded(t), false) == t
  {
    if t != "" {
      EncodedIsDecoded(t[1..]);
      FirstIsDecoded(t[0], Encoded(t[1..]));
      hide Stripped;
      assert [t[0]] + t[1..] == t;
    }
  }

  lemma FirstIsDecoded(c: char, rest: string)
    ensures var e := if c == '<' then "&lt;" else if c == '>' then "&gt;" else if c == '&' then "&amp;"
                     else if c == '"' then "&quot;" else if c == '\'' then "&apos;" else [c];
            Stripped(e + rest, false) == [c] + Stripped(rest, false)
  {
    var e := if c == '<' then "&lt;" else if c == '>' then "&gt;" else if c == '&' then "&amp;"
             else if c == '"' then "&quot;" else if c == '\'' then "&apos;" else [c];
    var s := e + rest;
    assert s[0..] == s && s[|e|..] == rest && s[0] == e[0];
    assert |e| > 1 ==> s[1] == e[1] && s[2] == e[2] && s[3] == e[3];
    StrippedStep(s, 0, false);
    hide Stripped;
  }

  /** A tag is dropped, whatever stands in it. */
  lemma TagIsDropped(tag: string, rest: string)
    requires '>' !in tag
    ensures Stripped("<" + tag + ">" + rest, false) == Stripped(rest, false)
  {
    var s := "<" + tag + ">" + rest;
    assert s[1..] == tag + ">" + rest;
    InsideIsDropped(tag, rest);
  }

  lemma {:induction false} InsideIsDropped(tag: string, rest: string)
    requires '>' !in tag
    ensures Stripped(tag + ">" + rest, true) == Stripped(rest, false)
  {
    var s := tag + ">" + rest;
    if tag == "" {
      assert s[1..] == rest;
    } else {
      assert tag[0] in tag && s[0] == tag[0] && s[1..] == tag[1..] + ">" + rest;
      InsideIsDropped(tag[1..], rest);
    }
  }
}
