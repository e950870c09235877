/** Index marks of src/server/index_marking.c. `isSpace` stands for g_unichar_isspace. */
module IndexMarking {
  import opened Strings
  import opened SsmlStrip

  datatype DataMode = Text | Ssml

  const MARK_HEAD := "<mark name=\"__spd_"
  const MARK_TAIL := "\"/>"
  const SPEAK := "<speak>"
  const END_SPEAK := "</speak>"

  function Mark(n: nat): string {
    MARK_HEAD + Decimal(n) + MARK_TAIL
  }

  predicate Sentence(c: char) {
    c == '.' || c == '?' || c == '!'
  }

  /** A mark goes after the sentence character that stands before `c`. */
  predicate Follows(c: char, isSpace: char -> bool) {
    isSpace(c) || c == '<' || c == '&'
  }

  /** One character as it is copied into the marked text. */
  function Copy(c: char, mode: DataMode): string {
    if mode.Ssml? then [c] else Escape1(c)
  }

  function Inside(c: char, mode: DataMode, inside: bool): bool {
    if mode.Text? then inside else if c == '<' then true else if c == '>' then false else inside
  }

  /** A mark goes after the first character of `t`. */
  predicate Breaks(t: string, inside: bool, isSpace: char -> bool) {
    |t| > 1 && Sentence(t[0]) && !inside && Follows(t[1], isSpace)
  }

  function Piece(t: string, mode: DataMode, inside: bool, n: nat, isSpace: char -> bool): string
    requires t != []
  {
    if Breaks(t, inside, isSpace) then [t[0]] + Mark(n) else Copy(t[0], mode)
  }

  /** The text with marks numbered from n. */
  function Marked(t: string, mode: DataMode, inside: bool, n: nat, isSpace: char -> bool): string {
    if t == [] then []
    else
      Piece(t, mode, inside, n, isSpace)
      + Marked(t[1..], mode, Inside(t[0], mode, inside), if Breaks(t, inside, isSpace) then n + 1 else n, isSpace)
  }

  function Inserted(t: string, mode: DataMode, isSpace: char -> bool): string {
    var m := Marked(t, mode, false, 0, isSpace);
    if mode.Text? then SPEAK + m + END_SPEAK else m
  }

  lemma Advance(all: string, before: string, t: string, mode: DataMode, inside: bool, n: nat, isSpace: char -> bool)
    requires t != [] && all == before + Marked(t, mode, inside, n, isSpace)
    ensures all == before + Piece(t, mode, inside, n, isSpace)
                   + Marked(t[1..], mode, Inside(t[0], mode, inside),
                            if Breaks(t, inside, isSpace) then n + 1 else n, isSpace)
  {
  }

  class Message {
    var buf: string

    constructor (buf: string)
      ensures this.buf == buf
    {
      this.buf := buf;
    }

    /** The branches of insert_index_marks that copy or escape one character. */
    static method CopyChar(c: char, mode: DataMode, insideTag: bool) returns (piece: string, inside: bool)
      requires mode.Text? ==> !insideTag
      ensures piece == Copy(c, mode) && inside == Inside(c, mode, insideTag)
    {
      inside := insideTag;
      piece := "";
      if c == '<' {
        if mode.Ssml? {
          inside := true;
          piece := [c];
        } else {
          piece := "&lt;";
        }
      } else if c == '>' {
        if mode.Ssml? {
          inside := false;
          piece := [c];
        } else {
          piece := "&gt;";
        }
      } else if c == '&' {
        if mode.Ssml? {
          piece := [c];
        } else if !insideTag {
          piece := "&amp;";
        }
      } else {
        piece := [c];
      }
    }

    /** insert_index_marks */
    method InsertIndexMarks(mode: DataMode, isSpace: char -> bool)
      modifies this
      ensures buf == Inserted(old(buf), mode, isSpace)
    {
      var markedText := "";
      var n, insideTag := 0, false;
      if mode.Text? {
        markedText := SPEAK;
      }
      var pos := 0;
      ghost var all := markedText + Marked(buf, mode, false, 0, isSpace);
      while pos < |buf|
        invariant pos <= |buf| && buf == old(buf)
        invariant mode.Text? ==> !insideTag
        invariant all == markedText + Marked(buf[pos..], mode, insideTag, n, isSpace)
      {
        var c := buf[pos];
        Advance(all, markedText, buf[pos..], mode, insideTag, n, isSpace);
        assert buf[pos..][1..] == buf[pos + 1..];
        if (c == '.' || c == '?' || c == '!') && !insideTag {
          pos := pos + 1;
          if pos == |buf| {
            markedText := markedText + [c];
            break;
          }
          var d := buf[pos];
          if isSpace(d) || d == '<' || d == '&' {
            markedText := markedText + ([c] + (MARK_HEAD + Decimal(n) + MARK_TAIL));
            n := n + 1;
          } else {
            markedText := markedText + [c];
          }
        } else {
          var piece;
          piece, insideTag := CopyChar(c, mode, insideTag);
          markedText := markedText + piece;
          pos := pos + 1;
        }
      }
      assert all == markedText;
      if mode.Text? {
        markedText := markedText + END_SPEAK;
      }
      buf := markedText;
    }
  }

  // ---------------------------------------------------------------- finding and deleting marks

  datatype Found = NotFound | Rest(text: string)

  /** find_index_mark: what stands after the first mark k. */
  function FindIndexMark(buf: string, k: nat): Found {
    var p := Index(buf, Mark(k));
    if p == -1 then NotFound else Rest(buf[p + |Mark(k)|..])
  }

  /** What stands after the first `>`, if any. */
  function AfterTag(s: string): (r: string)
    ensures |r| <= |s| && (s != [] ==> |r| < |s|)
  {
    if s == [] then [] else if s[0] == '>' then s[1..] else AfterTag(s[1..])
  }

  /** A text without the tags that begin like a mark of the server's own. */
  function StripMarks(s: string): string
    decreases |s|
  {
    if s == [] then []
    else if MARK_HEAD <= s then StripMarks(AfterTag(s))
    else [s[0]] + StripMarks(s[1..])
  }

  function Cut(s: string): string {
    var p := Index(s, END_SPEAK);
    if p == -1 then s else s[..p]
  }

  function StrippedMarks(buf: string, mode: DataMode): string {
    if mode.Ssml? then SPEAK + StripMarks(buf) else Cut(StripMarks(buf))
  }

  /** Up to the next mark everything is kept. */
  lemma {:induction false} CopiedUpToMark(s: string, p: nat, q: nat)
    requires p <= q <= |s| && forall j | p <= j < q :: !At(s, j, MARK_HEAD)
    ensures StripMarks(s[p..]) == s[p..q] + StripMarks(s[q..])
    decreases q - p
  {
    hide At, AfterTag;
    if p < q {
      AtIsPrefix(s, p, MARK_HEAD);
      assert s[p..][1..] == s[p + 1..];
      CopiedUpToMark(s, p + 1, q);
      assert s[p..q] == [s[p]] + s[p + 1..q];
    } else {
      assert s[p..q] == [];
    }
  }

  lemma {:induction false} AfterTagAt(s: string, p: nat)
    requires p <= |s| && '>' !in s[..p] && (p < |s| ==> s[p] == '>')
    ensures AfterTag(s) == if p < |s| then s[p + 1..] else []
  {
    if p > 0 {
      assert s[0] in s[..p];
      assert forall c | c in s[1..][..p - 1] :: c in s[..p];
      AfterTagAt(s[1..], p - 1);
    }
  }

  /** The inner loop of strip_index_marks, from a `<` to behind the next `>`. */
  method SkipTag(buf: string, start: nat) returns (p: nat)
    requires start < |buf| && buf[start] == '<'
    ensures start < p <= |buf| && AfterTag(buf[start..]) == buf[p..]
  {
    p := start + 1;
    while p < |buf| && buf[p] != '>'
      invariant start < p <= |buf| && '>' !in buf[start..p]
    {
      p := p + 1;
    }
    AfterTagAt(buf[start..], p - start);
    if p < |buf| {
      p := p + 1;
    }
  }

  /** One round of strip_index_marks: `str` is what is kept before place `start`. */
  lemma NextMark(all: string, str: string, buf: string, start: nat, p: nat)
    requires start <= p <= |buf| && At(buf, p, MARK_HEAD) && forall j | start <= j < p :: !At(buf, j, MARK_HEAD)
    requires all == str + StripMarks(buf[start..])
    ensures buf[p] == '<' && all == str + buf[start..p] + StripMarks(AfterTag(buf[p..]))
  {
    CopiedUpToMark(buf, start, p);
    AtIsPrefix(buf, p, MARK_HEAD);
    assert buf[p..][0] == MARK_HEAD[0];
  }

  lemma NoMoreMarks(all: string, str: string, buf: string, start: nat)
    requires start <= |buf| && forall j | start <= j :: !At(buf, j, MARK_HEAD)
    requires all == str + StripMarks(buf[start..])
    ensures all == str + buf[start..]
  {
    CopiedUpToMark(buf, start, |buf|);
  }

  /** strip_index_marks */
  method StripIndexMarks(buf: string, mode: DataMode) returns (r: string)
    ensures r == StrippedMarks(buf, mode)
  {
    var str := if mode.Ssml? then SPEAK else "";
    var p := 0;
    ghost var all := str + StripMarks(buf);
    assert buf[0..] == buf;
    while p < |buf|
      invariant p <= |buf| && all == str + StripMarks(buf[p..])
    {
      var start := p;
      p := IndexFrom(buf, MARK_HEAD, p);
      if p == -1 {
        NoMoreMarks(all, str, buf, start);
        str := str + buf[start..];
        p := |buf|;
        break;
      }
      NextMark(all, str, buf, start, p);
      str := str + buf[start..p];
      p := SkipTag(buf, p);
    }
    assert all == str;
    assert mode.Text? ==> all == StripMarks(buf);
    r := if mode.Text? then Cut(str) else str;
  }
}
