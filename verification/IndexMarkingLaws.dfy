/** What inserting, finding, deleting and stripping marks do together. */
module IndexMarkingLaws {
  import opened Collections
  import opened Strings
  import opened SsmlStrip
  import opened IndexMarking

  // ---------------------------------------------------------------- a mark as a piece of text

  /** A mark is one tag: `<` first, `>` last, neither in between. */
  lemma MarkIsATag(n: nat)
    ensures var m := Mark(n);
            |m| >= 2 && m[0] == '<' && m[|m| - 1] == '>' && '>' !in m[..|m| - 1] && '<' !in m[1..]
    ensures MARK_HEAD <= Mark(n)
  {
    var m, d := Mark(n), Decimal(n);
    assert forall i | 0 <= i < |d| :: d[i] in d;
    forall i | 0 <= i < |m|
      ensures (m[i] == '>' ==> i == |m| - 1) && (m[i] == '<' ==> i == 0)
    {
      if |MARK_HEAD| <= i < |MARK_HEAD| + |d| {
        assert m[i] == d[i - |MARK_HEAD|];
      }
    }
  }

  /** A mark of one number is not the beginning of a text that begins with a mark of another. */
  lemma MarksDiffer(m: nat, n: nat, x: string)
    requires Mark(m) <= Mark(n) + x
    ensures m == n
  {
    hide Decimal;
    var h, a, b := |MARK_HEAD|, Decimal(m), Decimal(n);
    var s := Mark(n) + x;
    assert forall i | 0 <= i < |a| :: s[h + i] == a[i] && a[i] in a;
    assert forall i | 0 <= i < |b| :: s[h + i] == b[i] && b[i] in b;
    assert s[h + |a|] == '"' == s[h + |b|];
    assert |a| == |b|;
    assert a == b;
    DecimalInjective(m, n);
  }

  // ---------------------------------------------------------------- marks are invisible to modules

  lemma StrippedMarkAfter(c: char, n: nat, rest: string)
    requires !Special(c)
    ensures Stripped([c] + Mark(n) + rest, false) == [c] + Stripped(rest, false)
  {
    MarkIsATag(n);
    StrippedTag(Mark(n), rest);
    StrippedPlain(c, Mark(n) + rest);
    assert [c] + Mark(n) + rest == [c] + (Mark(n) + rest);
  }

  lemma StrippedPiece(t: string, n: nat, isSpace: char -> bool, rest: string)
    requires t != []
    ensures Stripped(Piece(t, Text, false, n, isSpace) + rest, false) == [t[0]] + Stripped(rest, false)
  {
    if Breaks(t, false, isSpace) {
      StrippedMarkAfter(t[0], n, rest);
    } else {
      StrippedEscape(t[0], rest);
    }
  }

  lemma MarkedStep(t: string, mode: DataMode, inside: bool, n: nat, isSpace: char -> bool, z: string)
    requires t != []
    ensures Marked(t, mode, inside, n, isSpace) + z ==
            Piece(t, mode, inside, n, isSpace)
            + (Marked(t[1..], mode, Inside(t[0], mode, inside),
                      if Breaks(t, inside, isSpace) then n + 1 else n, isSpace)
               + z)
  {
    hide Breaks, Piece, Inside;
  }

  lemma JoinFirst(t: string, x: string)
    requires t != []
    ensures [t[0]] + (t[1..] + x) == t + x
  {
  }

  /** In TEXT mode stripping what was inserted gives the text back. */
  lemma {:induction false} StrippedMarked(t: string, n: nat, isSpace: char -> bool, z: string)
    ensures Stripped(Marked(t, Text, false, n, isSpace) + z, false) == t + Stripped(z, false)
  {
    if t == [] {
      assert Marked(t, Text, false, n, isSpace) + z == z;
    } else {
      var n' := if Breaks(t, false, isSpace) then n + 1 else n;
      var rest := Marked(t[1..], Text, false, n', isSpace) + z;
      MarkedStep(t, Text, false, n, isSpace, z);
      StrippedPiece(t, n, isSpace, rest);
      StrippedMarked(t[1..], n', isSpace, z);
      JoinFirst(t, Stripped(z, false));
    }
  }

  lemma EndSpeakVanishes()
    ensures Stripped(END_SPEAK, false) == []
  {
    StrippedTag(END_SPEAK, "");
    assert END_SPEAK + "" == END_SPEAK;
  }

  lemma TextMarksAreInvisible(t: string, isSpace: char -> bool)
    ensures Stripped(Inserted(t, Text, isSpace), false) == t
  {
    var m := Marked(t, Text, false, 0, isSpace);
    StrippedTag(SPEAK, m + END_SPEAK);
    assert SPEAK + m + END_SPEAK == SPEAK + (m + END_SPEAK);
    StrippedMarked(t, 0, isSpace, END_SPEAK);
    EndSpeakVanishes();
  }

  predicate NoSentence(w: string) {
    forall i | 0 <= i < |w| :: !Sentence(w[i])
  }

  function InsideAfter(w: string, inside: bool): bool {
    if w == [] then inside else InsideAfter(w[1..], Inside(w[0], Ssml, inside))
  }

  /** In SSML mode marks never split a stretch without a sentence character. */
  lemma {:induction false} MarkedPrefix(t: string, w: string, inside: bool, n: nat, isSpace: char -> bool)
    requires NoSentence(w)
    ensures w <= t <==> w <= Marked(t, Ssml, inside, n, isSpace)
    ensures w <= t ==> Marked(t, Ssml, inside, n, isSpace) ==
                       w + Marked(t[|w|..], Ssml, InsideAfter(w, inside), n, isSpace)
  {
    assert t == [] ==> Marked(t, Ssml, inside, n, isSpace) == [];
    hide Marked, Inside, Sentence;
    if w != [] && t != [] {
      MarkedFirst(t, inside, n, isSpace);
      if w[0] == t[0] {
        var inside' := Inside(t[0], Ssml, inside);
        MarkedPrefix(t[1..], w[1..], inside', n, isSpace);
        SamePrefix(t[0], t[1..], w);
        SamePrefix(t[0], Marked(t[1..], Ssml, inside', n, isSpace), w);
      }
    }
  }

  lemma {:induction false} MarkedFirst(t: string, inside: bool, n: nat, isSpace: char -> bool)
    requires t != []
    ensures var m := Marked(t, Ssml, inside, n, isSpace);
            && m != [] && m[0] == t[0]
            && (!Sentence(t[0]) ==> m == [t[0]] + Marked(t[1..], Ssml, Inside(t[0], Ssml, inside), n, isSpace))
  {
    hide Follows, Sentence, Inside;
  }

  lemma SamePrefix(c: char, x: string, w: string)
    requires w != [] && w[0] == c
    ensures w <= [c] + x <==> w[1..] <= x
    ensures w[1..] <= x ==> ([c] + x)[|w|..] == x[|w| - 1..]
    ensures w == [c] + w[1..]
  {
    assert ([c] + x)[1..] == x;
    assert w <= [c] + x ==> w[1..] == ([c] + x)[..|w|][1..];
  }

  /** One character outside entities: the two texts are stripped alike if their rests are. */
  lemma StrippedSsmlStep(c: char, x: string, y: string, inside: bool)
    requires c != '&' || inside
    requires Stripped(x, Inside(c, Ssml, inside)) == Stripped(y, Inside(c, Ssml, inside))
    ensures Stripped([c] + x, inside) == Stripped([c] + y, inside)
  {
    assert ([c] + x)[1..] == x && ([c] + y)[1..] == y;
    if !Special(c) && !inside {
      StrippedPlain(c, x);
      StrippedPlain(c, y);
    }
  }

  /** In SSML mode stripping does not see the marks, whatever the message. */
  lemma {:induction false} StrippedMarkedSsml(t: string, inside: bool, n: nat, isSpace: char -> bool)
    ensures Stripped(Marked(t, Ssml, inside, n, isSpace), inside) == Stripped(t, inside)
    decreases |t|, 1
  {
    if t == [] {
    } else if Breaks(t, inside, isSpace) {
      var rest := Marked(t[1..], Ssml, false, n + 1, isSpace);
      StrippedMarkAfter(t[0], n, rest);
      StrippedPlain(t[0], t[1..]);
      assert t == [t[0]] + t[1..];
      StrippedMarkedSsml(t[1..], false, n + 1, isSpace);
    } else if t[0] == '&' && !inside {
      AmpersandKeeps(t, n, isSpace);
    } else {
      var i' := Inside(t[0], Ssml, inside);
      StrippedMarkedSsml(t[1..], i', n, isSpace);
      StrippedSsmlStep(t[0], Marked(t[1..], Ssml, i', n, isSpace), t[1..], inside);
      assert t == [t[0]] + t[1..];
    }
  }

  lemma {:induction false} AmpersandKeeps(t: string, n: nat, isSpace: char -> bool)
    requires t != [] && t[0] == '&'
    ensures Stripped(Marked(t, Ssml, false, n, isSpace), false) == Stripped(t, false)
    decreases |t|, 0
  {
    EntitySurvives(t, n, isSpace);
    var e := Entity(t).0;
    if e != "" {
      MarkedPrefix(t, e, false, n, isSpace);
      StrippedMarkedSsml(t[|e|..], false, n, isSpace);
      assert Marked(t, Ssml, false, n, isSpace)[|e|..] == Marked(t[|e|..], Ssml, false, n, isSpace);
    } else {
      StrippedMarkedSsml(t[1..], false, n, isSpace);
      assert Marked(t, Ssml, false, n, isSpace)[1..] == Marked(t[1..], Ssml, false, n, isSpace);
    }
  }

  lemma PrefixSurvives(t: string, w: string, n: nat, isSpace: char -> bool)
    requires NoSentence(w)
    ensures w <= t <==> w <= Marked(t, Ssml, false, n, isSpace)
  {
    MarkedPrefix(t, w, false, n, isSpace);
  }

  /** An entity begins the marked text just when it begins the text. */
  lemma EntitySurvives(t: string, n: nat, isSpace: char -> bool)
    ensures Entity(Marked(t, Ssml, false, n, isSpace)) == Entity(t)
    ensures var e := Entity(t).0; NoSentence(e) && e <= t && !InsideAfter(e, false)
  {
    hide Marked, InsideAfter;
    PrefixSurvives(t, "&lt;", n, isSpace);
    PrefixSurvives(t, "&gt;", n, isSpace);
    PrefixSurvives(t, "&amp;", n, isSpace);
    PrefixSurvives(t, "&quot;", n, isSpace);
    PrefixSurvives(t, "&apos;", n, isSpace);
    EntityLeavesInside(Entity(t).0);
  }

  lemma {:induction false} EntityLeavesInside(e: string)
    requires forall i | 0 <= i < |e| :: e[i] != '<' && e[i] != '>'
    ensures !InsideAfter(e, false)
  {
    if e != [] {
      EntityLeavesInside(e[1..]);
    }
  }

  lemma SsmlMarksAreInvisible(t: string, isSpace: char -> bool)
    ensures Stripped(Inserted(t, Ssml, isSpace), false) == Stripped(t, false)
  {
    StrippedMarkedSsml(t, false, 0, isSpace);
  }

  // ---------------------------------------------------------------- where the marks of a message are

  /** Place i of a message stands inside a tag: the last angle bracket before it opens one. */
  predicate InTag(t: string, i: nat)
    requires i <= |t|
  {
    exists j :: 0 <= j < i && t[j] == '<' && '>' !in t[j..i]
  }

  lemma InTagStep(t: string, i: nat)
    requires i < |t|
    ensures InTag(t, i + 1) == if t[i] == '<' then true else if t[i] == '>' then false else InTag(t, i)
  {
    forall j | 0 <= j <= i
      ensures '>' !in t[j..i + 1] <==> '>' !in t[j..i] && t[i] != '>'
    {
      assert t[j..i + 1] == t[j..i] + [t[i]];
    }
    assert '>' !in t[i..i];
  }

  /** A mark is due behind place b - 1: a sentence ends there, outside tags. */
  predicate MarkDue(t: string, b: int, isSpace: char -> bool) {
    IsBreak(t, b, isSpace) && !InTag(t, b - 1)
  }

  /** The places up to `end` where a mark is due. */
  function DueUpTo(t: string, end: nat, isSpace: char -> bool): nat {
    if end == 0 then 0 else DueUpTo(t, end - 1, isSpace) + if MarkDue(t, end, isSpace) then 1 else 0
  }

  /** A message up to a place, with the marks due numbered from 0. */
  function WithMarks(t: string, end: nat, isSpace: char -> bool): string
    requires end <= |t|
  {
    if end == 0 then ""
    else
      WithMarks(t, end - 1, isSpace) + [t[end - 1]]
      + if MarkDue(t, end, isSpace) then Mark(DueUpTo(t, end - 1, isSpace)) else ""
  }

  lemma BreaksWhereDue(t: string, i: nat, isSpace: char -> bool)
    requires i < |t|
    ensures Breaks(t[i..], InTag(t, i), isSpace) <==> MarkDue(t, i + 1, isSpace)
  {
    hide InTag;
  }

  lemma OnePlaceMore(t: string, i: nat, isSpace: char -> bool)
    requires i < |t|
    ensures WithMarks(t, i + 1, isSpace) == WithMarks(t, i, isSpace)
                                            + Piece(t[i..], Ssml, InTag(t, i), DueUpTo(t, i, isSpace), isSpace)
    ensures DueUpTo(t, i + 1, isSpace) == DueUpTo(t, i, isSpace) + if MarkDue(t, i + 1, isSpace) then 1 else 0
  {
    BreaksWhereDue(t, i, isSpace);
    hide InTag, MarkDue, Mark, Breaks;
    if MarkDue(t, i + 1, isSpace) {
      Reassociate(WithMarks(t, i, isSpace), [t[i]], Mark(DueUpTo(t, i, isSpace)));
    } else {
      assert WithMarks(t, i, isSpace) + [t[i]] + "" == WithMarks(t, i, isSpace) + [t[i]];
    }
  }

  lemma {:induction false} MarkedFrom(t: string, i: nat, isSpace: char -> bool)
    requires i <= |t|
    ensures WithMarks(t, i, isSpace) + Marked(t[i..], Ssml, InTag(t, i), DueUpTo(t, i, isSpace), isSpace) ==
            WithMarks(t, |t|, isSpace)
    decreases |t| - i
  {
    hide WithMarks, InTag, MarkDue, Breaks, Piece, DueUpTo;
    if i == |t| {
      assert t[i..] == "" && WithMarks(t, i, isSpace) + "" == WithMarks(t, i, isSpace);
    } else {
      MarkedFrom(t, i + 1, isSpace);
      OnePlaceMore(t, i, isSpace);
      InTagStep(t, i);
      BreaksWhereDue(t, i, isSpace);
      assert t[i..][1..] == t[i + 1..] && t[i..][0] == t[i];
      var rest := Marked(t[i + 1..], Ssml, InTag(t, i + 1), DueUpTo(t, i + 1, isSpace), isSpace);
      Reassociate(WithMarks(t, i, isSpace), Piece(t[i..], Ssml, InTag(t, i), DueUpTo(t, i, isSpace), isSpace), rest);
    }
  }

  /** A message gets a mark wherever a sentence ends outside its tags, and nowhere else, numbered from 0. */
  lemma SsmlMarksAreDue(t: string, isSpace: char -> bool)
    ensures Inserted(t, Ssml, isSpace) == WithMarks(t, |t|, isSpace)
  {
    hide Marked, WithMarks, InTag, DueUpTo;
    MarkedFrom(t, 0, isSpace);
    NothingMarked(t, isSpace);
    assert t[0..] == t;
    assert "" + Marked(t, Ssml, false, 0, isSpace) == Marked(t, Ssml, false, 0, isSpace);
  }

  lemma NothingMarked(t: string, isSpace: char -> bool)
    ensures !InTag(t, 0) && WithMarks(t, 0, isSpace) == "" && DueUpTo(t, 0, isSpace) == 0
  {
  }

  // ---------------------------------------------------------------- resuming at a mark

  /** Place b stands right behind a sentence character and before a space, a tag or an entity. */
  predicate IsBreak(t: string, b: int, isSpace: char -> bool) {
    && 0 < b < |t|
    && (t[b - 1] == '.' || t[b - 1] == '?' || t[b - 1] == '!')
    && (isSpace(t[b]) || t[b] == '<' || t[b] == '&')
  }

  function Shift(ps: seq<nat>): seq<nat> {
    seq(|ps|, i requires 0 <= i < |ps| => ps[i] + 1)
  }

  /** The sentence breaks of a text, from left to right. */
  function BreakPoints(t: string, isSpace: char -> bool): (bs: seq<nat>)
    ensures forall i | 0 <= i < |bs| :: 0 < bs[i] < |t|
  {
    if t == [] then []
    else (if Breaks(t, false, isSpace) then [1] else []) + Shift(BreakPoints(t[1..], isSpace))
  }

  lemma {:induction false} BreakPointsAreBreaks(t: string, isSpace: char -> bool)
    ensures var bs := BreakPoints(t, isSpace);
            && (forall i, j | 0 <= i < j < |bs| :: bs[i] < bs[j])
            && (forall b :: IsBreak(t, b, isSpace) <==> b in bs)
  {
    var bs := BreakPoints(t, isSpace);
    if t != [] {
      BreakPointsAreBreaks(t[1..], isSpace);
      var rest := BreakPoints(t[1..], isSpace);
      forall b
        ensures IsBreak(t, b, isSpace) <==> b in bs
      {
        if b > 1 {
          assert IsBreak(t, b, isSpace) <==> IsBreak(t[1..], b - 1, isSpace);
          if b - 1 in rest {
            var i :| 0 <= i < |rest| && rest[i] == b - 1;
            assert Shift(rest)[i] == b;
          }
        }
      }
    }
  }

  /** A mark cannot begin in a piece of text without `<`. */
  lemma NoMarkBeginsIn(e: string, x: string, k: nat)
    requires '<' !in e
    ensures forall i: nat | i < |e| :: !At(e + x, i, Mark(k))
  {
    MarkIsATag(k);
    forall i: nat | i < |e|
      ensures !At(e + x, i, Mark(k))
    {
      assert e[i] in e;
      NotAt(e + x, i, Mark(k), 0);
    }
  }

  lemma NoMarkBeginsInMark(c: char, n: nat, x: string, k: nat)
    requires c != '<' && k != n
    ensures forall i: nat | i < |[c] + Mark(n)| :: !At([c] + Mark(n) + x, i, Mark(k))
  {
    var e, pat := [c] + Mark(n), Mark(k);
    MarkIsATag(k);
    MarkIsATag(n);
    forall i: nat | i < |e|
      ensures !At(e + x, i, pat)
    {
      if i == 1 {
        assert (e + x)[1..] == Mark(n) + x;
        AtIsPrefix(e + x, 1, pat);
        if pat <= Mark(n) + x {
          MarksDiffer(k, n, x);
        }
      } else {
        assert i > 1 ==> e[i] == Mark(n)[1..][i - 2];
        NotAt(e + x, i, pat, 0);
      }
    }
  }

  lemma RestAfterShift(e: string, x: string, q: nat)
    requires q <= |x|
    ensures (e + x)[|e| + q..] == x[q..]
  {
  }

  /** The marked text as a whole, from number n on. */
  function Tail(t: string, n: nat, isSpace: char -> bool): string {
    Marked(t, Text, false, n, isSpace) + END_SPEAK
  }

  lemma TailStep(t: string, n: nat, isSpace: char -> bool)
    requires t != []
    ensures Tail(t, n, isSpace) == Piece(t, Text, false, n, isSpace)
                                   + Tail(t[1..], if Breaks(t, false, isSpace) then n + 1 else n, isSpace)
  {
    MarkedStep(t, Text, false, n, isSpace, END_SPEAK);
  }

  lemma NotFoundInNothing(n: nat, k: nat, isSpace: char -> bool)
    ensures FindIndexMark(Tail([], n, isSpace), k) == NotFound
  {
    assert Tail([], n, isSpace) == END_SPEAK;
    assert forall i: nat :: !At(END_SPEAK, i, Mark(k));
  }

  lemma FoundPastFirst(t: string, n: nat, k: nat, isSpace: char -> bool)
    requires t != [] && !(Breaks(t, false, isSpace) && k == n)
    ensures var n' := if Breaks(t, false, isSpace) then n + 1 else n;
            FindIndexMark(Tail(t, n, isSpace), k) == FindIndexMark(Tail(t[1..], n', isSpace), k)
  {
    var n' := if Breaks(t, false, isSpace) then n + 1 else n;
    var piece, rest := Piece(t, Text, false, n, isSpace), Tail(t[1..], n', isSpace);
    TailStep(t, n, isSpace);
    if Breaks(t, false, isSpace) {
      NoMarkBeginsInMark(t[0], n, rest, k);
    } else {
      NoMarkBeginsIn(piece, rest, k);
    }
    FoundLater(piece, rest, k);
  }

  /** Searching for mark k, numbered from n on: it is there just when there is a break for it, and the rest of the
      marked text after it is the marked text after that break. */
  lemma {:induction false} FindInMarked(t: string, n: nat, k: nat, isSpace: char -> bool)
    ensures var bs := BreakPoints(t, isSpace);
            FindIndexMark(Tail(t, n, isSpace), k) ==
            if n <= k && k - n < |bs| then Rest(Tail(t[bs[k - n]..], k + 1, isSpace)) else NotFound
  {
    hide Tail, FindIndexMark, Marked;
    if t == [] {
      NotFoundInNothing(n, k, isSpace);
    } else if Breaks(t, false, isSpace) && k == n {
      TailStep(t, n, isSpace);
      FoundFirst(t[0], n, Tail(t[1..], n + 1, isSpace));
      assert BreakPoints(t, isSpace)[0] == 1;
    } else {
      FoundPastFirst(t, n, k, isSpace);
      FindInMarked(t[1..], if Breaks(t, false, isSpace) then n + 1 else n, k, isSpace);
      BreaksAfterFirst(t, n, k, isSpace);
    }
  }

  lemma FoundFirst(c: char, n: nat, rest: string)
    requires c != '<'
    ensures FindIndexMark([c] + Mark(n) + rest, n) == Rest(rest)
  {
    var whole := [c] + Mark(n) + rest;
    NoMarkBeginsIn([c], Mark(n) + rest, n);
    assert whole == [c] + (Mark(n) + rest);
    assert whole[1..1 + |Mark(n)|] == Mark(n);
    IndexIs(whole, Mark(n), 1);
    assert whole[1 + |Mark(n)|..] == rest;
  }

  lemma FoundLater(piece: string, rest: string, k: nat)
    requires forall i: nat | i < |piece| :: !At(piece + rest, i, Mark(k))
    ensures FindIndexMark(piece + rest, k) == FindIndexMark(rest, k)
  {
    IndexShift(piece, rest, Mark(k));
    var q := Index(rest, Mark(k));
    if q != -1 {
      RestAfterShift(piece, rest, q + |Mark(k)|);
    }
  }

  lemma {:induction false} FirstAndLater(t: string, isSpace: char -> bool)
    requires t != []
    ensures var bs, rest := BreakPoints(t, isSpace), BreakPoints(t[1..], isSpace);
            var d := if Breaks(t, false, isSpace) then 1 else 0;
            |bs| == d + |rest| && forall i | d <= i < |bs| :: bs[i] == rest[i - d] + 1
  {
    hide Breaks;
  }

  lemma TailOfTail(t: string, b: nat)
    requires b < |t|
    ensures t[b + 1..] == t[1..][b..]
  {
  }

  lemma BreaksAfterFirst(t: string, n: nat, k: nat, isSpace: char -> bool)
    requires t != [] && !(Breaks(t, false, isSpace) && k == n)
    ensures var bs, rest := BreakPoints(t, isSpace), BreakPoints(t[1..], isSpace);
            var n' := if Breaks(t, false, isSpace) then n + 1 else n;
            && (n <= k && k - n < |bs| <==> n' <= k && k - n' < |rest|)
            && (n <= k && k - n < |bs| ==> t[bs[k - n]..] == t[1..][rest[k - n']..])
  {
    hide Breaks, BreakPoints;
    FirstAndLater(t, isSpace);
    if n <= k && k - n < |BreakPoints(t, isSpace)| {
      TailOfTail(t, BreakPoints(t, isSpace)[k - n] - 1);
    }
  }

  /** Mark k of a marked text: found just when the text has a break number k, and what a module speaks of the rest
      is the text after that break, to the character. */
  lemma ResumeIsExact(t: string, k: nat, isSpace: char -> bool)
    ensures var bs := BreakPoints(t, isSpace); var f := FindIndexMark(Inserted(t, Text, isSpace), k);
            if k < |bs| then f.Rest? && Stripped(f.text, false) == t[bs[k]..] else f == NotFound
  {
    hide BreakPoints, Inserted, Stripped, Marked;
    FindInInserted(t, k, isSpace);
    var bs := BreakPoints(t, isSpace);
    if k < |bs| {
      StrippedMarked(t[bs[k]..], k + 1, isSpace, END_SPEAK);
      EndSpeakVanishes();
    }
  }

  lemma FindInInserted(t: string, k: nat, isSpace: char -> bool)
    ensures var bs := BreakPoints(t, isSpace);
            FindIndexMark(Inserted(t, Text, isSpace), k) ==
            if k < |bs| then Rest(Tail(t[bs[k]..], k + 1, isSpace)) else NotFound
  {
    var rest := Tail(t, 0, isSpace);
    assert Inserted(t, Text, isSpace) == SPEAK + rest;
    forall i: nat | i < |SPEAK|
      ensures !At(SPEAK + rest, i, Mark(k))
    {
      MarkIsATag(k);
      NotAt(SPEAK + rest, i, Mark(k), if i == 0 then 1 else 0);
    }
    FoundLater(SPEAK, rest, k);
    FindInMarked(t, 0, k, isSpace);
  }

  /** Behind mark k there is no mark of a number up to k. */
  lemma EachMarkOnce(t: string, k: nat, j: nat, isSpace: char -> bool)
    requires k < |BreakPoints(t, isSpace)| && j <= k
    ensures var f := FindIndexMark(Inserted(t, Text, isSpace), k);
            f.Rest? && FindIndexMark(f.text, j) == NotFound
  {
    FindInInserted(t, k, isSpace);
    FindInMarked(t[BreakPoints(t, isSpace)[k]..], k + 1, j, isSpace);
  }

  lemma BreaksBehind(t: string, k: nat, isSpace: char -> bool)
    requires k + 1 < |BreakPoints(t, isSpace)|
    ensures BreakPoints(t[BreakPoints(t, isSpace)[k]..], isSpace) != []
  {
    hide BreakPoints;
    var bs := BreakPoints(t, isSpace);
    var u := t[bs[k]..];
    BreakPointsAreBreaks(t, isSpace);
    BreakPointsAreBreaks(u, isSpace);
    assert bs[k + 1] in bs;
    assert IsBreak(u, bs[k + 1] - bs[k], isSpace);
  }

  /** Behind mark k stands mark k + 1, if the text has that many breaks. */
  lemma MarksInOrder(t: string, k: nat, isSpace: char -> bool)
    requires k + 1 < |BreakPoints(t, isSpace)|
    ensures var f := FindIndexMark(Inserted(t, Text, isSpace), k);
            f.Rest? && FindIndexMark(f.text, k + 1).Rest?
  {
    FindInInserted(t, k, isSpace);
    BreaksBehind(t, k, isSpace);
    FindInMarked(t[BreakPoints(t, isSpace)[k]..], k + 1, k + 1, isSpace);
  }

  // ---------------------------------------------------------------- deleting marks

  function Escaped(t: string): string {
    if t == [] then [] else Escape1(t[0]) + Escaped(t[1..])
  }

  lemma {:induction false} EscapedHasNoTag(t: string)
    ensures '<' !in Escaped(t) && '>' !in Escaped(t)
  {
    if t != [] {
      EscapedHasNoTag(t[1..]);
    }
  }

  lemma CopiedWithoutTag(e: string, x: string)
    requires '<' !in e
    ensures StripMarks(e + x) == e + StripMarks(x)
  {
    forall j | 0 <= j < |e|
      ensures !At(e + x, j, MARK_HEAD)
    {
      assert e[j] in e;
      NotAt(e + x, j, MARK_HEAD, 0);
    }
    CopiedUpToMark(e + x, 0, |e|);
    assert (e + x)[0..] == e + x && (e + x)[|e|..] == x && (e + x)[0..|e|] == e;
  }

  lemma MarkIsDeleted(n: nat, x: string)
    ensures StripMarks(Mark(n) + x) == StripMarks(x)
  {
    var m := Mark(n);
    MarkIsATag(n);
    assert MARK_HEAD <= m + x;
    assert (m + x)[..|m| - 1] == m[..|m| - 1];
    AfterTagAt(m + x, |m| - 1);
    assert (m + x)[|m|..] == x;
  }

  lemma PieceIsCopied(t: string, n: nat, isSpace: char -> bool, x: string)
    requires t != []
    ensures StripMarks(Piece(t, Text, false, n, isSpace) + x) == Escape1(t[0]) + StripMarks(x)
  {
    if Breaks(t, false, isSpace) {
      CopiedWithoutTag([t[0]], Mark(n) + x);
      MarkIsDeleted(n, x);
      assert [t[0]] + Mark(n) + x == [t[0]] + (Mark(n) + x);
    } else {
      CopiedWithoutTag(Escape1(t[0]), x);
    }
  }

  lemma {:induction false} MarkedIsEscaped(t: string, n: nat, isSpace: char -> bool)
    ensures StripMarks(Tail(t, n, isSpace)) == Escaped(t) + END_SPEAK
  {
    if t == [] {
      assert Tail(t, n, isSpace) == END_SPEAK;
      EndSpeakIsNoMark();
    } else {
      var n' := if Breaks(t, false, isSpace) then n + 1 else n;
      TailStep(t, n, isSpace);
      PieceIsCopied(t, n, isSpace, Tail(t[1..], n', isSpace));
      MarkedIsEscaped(t[1..], n', isSpace);
      assert Escape1(t[0]) + (Escaped(t[1..]) + END_SPEAK) == Escaped(t) + END_SPEAK;
    }
  }

  lemma EndSpeakIsNoMark()
    ensures StripMarks(END_SPEAK) == END_SPEAK
  {
    assert forall j | 0 <= j < |END_SPEAK| :: !At(END_SPEAK, j, MARK_HEAD);
    CopiedUpToMark(END_SPEAK, 0, |END_SPEAK|);
    assert END_SPEAK[0..] == END_SPEAK && END_SPEAK[|END_SPEAK|..] == [] && StripMarks([]) == [];
  }

  /** `e` has no second `<` and does not begin with </speak>. */
  lemma CutBehind(e: string)
    requires |e| > 1 && '<' !in e[1..] && e[1] != '/'
    ensures Cut(e + END_SPEAK) == e
  {
    var s := e + END_SPEAK;
    forall j: nat | j < |e|
      ensures !At(s, j, END_SPEAK)
    {
      if j == 0 {
        NotAt(s, 0, END_SPEAK, 1);
      } else {
        assert e[j] == e[1..][j - 1];
        NotAt(s, j, END_SPEAK, 0);
      }
    }
    assert s[|e|..|e| + |END_SPEAK|] == END_SPEAK;
    IndexIs(s, END_SPEAK, |e|);
  }

  lemma SpeakIsCopied(x: string)
    ensures StripMarks(SPEAK + x) == SPEAK + StripMarks(x)
  {
    assert !(MARK_HEAD <= SPEAK + x) by {
      NotAt(SPEAK + x, 0, MARK_HEAD, 1);
      AtIsPrefix(SPEAK + x, 0, MARK_HEAD);
      assert (SPEAK + x)[0..] == SPEAK + x;
    }
    assert (SPEAK + x)[1..] == SPEAK[1..] + x;
    CopiedWithoutTag(SPEAK[1..], x);
    assert [SPEAK[0]] + (SPEAK[1..] + StripMarks(x)) == SPEAK + StripMarks(x);
  }

  /** TEXT mode: deleting what was inserted leaves the opening tag and the escaped text. */
  lemma TextMarksAreDeleted(t: string, isSpace: char -> bool)
    ensures StrippedMarks(Inserted(t, Text, isSpace), Text) == SPEAK + Escaped(t)
  {
    hide Marked, Escaped;
    var rest := Tail(t, 0, isSpace);
    assert Inserted(t, Text, isSpace) == SPEAK + rest;
    SpeakIsCopied(rest);
    MarkedIsEscaped(t, 0, isSpace);
    EscapedHasNoTag(t);
    var e := SPEAK + Escaped(t);
    assert e[1..] == SPEAK[1..] + Escaped(t);
    assert e + END_SPEAK == SPEAK + (Escaped(t) + END_SPEAK);
    CutBehind(e);
  }

  lemma {:induction false} AfterTagSkips(w: string, x: string)
    requires '>' !in w
    ensures AfterTag(w + x) == AfterTag(x)
  {
    if w == [] {
      assert w + x == x;
    } else {
      assert (w + x)[1..] == w[1..] + x;
      AfterTagSkips(w[1..], x);
    }
  }

  /** Inside a tag nothing is inserted up to its end. */
  lemma {:induction false} AfterTagOfMarked(t: string, n: nat, isSpace: char -> bool)
    ensures AfterTag(Marked(t, Ssml, true, n, isSpace)) == Marked(AfterTag(t), Ssml, false, n, isSpace)
  {
    if t != [] {
      var m := Marked(t, Ssml, true, n, isSpace);
      assert m[0] == t[0] && m[1..] == Marked(t[1..], Ssml, t[0] != '>', n, isSpace);
      if t[0] != '>' {
        AfterTagOfMarked(t[1..], n, isSpace);
      }
    }
  }

  lemma {:induction false} PlainKeepsInside(w: string, inside: bool)
    requires forall i | 0 <= i < |w| :: w[i] != '<' && w[i] != '>'
    ensures InsideAfter(w, inside) == inside
  {
    if w != [] {
      PlainKeepsInside(w[1..], inside);
    }
  }

  lemma MarkHeadInMarked(t: string, inside: bool, n: nat, isSpace: char -> bool)
    ensures MARK_HEAD <= t <==> MARK_HEAD <= Marked(t, Ssml, inside, n, isSpace)
    ensures MARK_HEAD <= t ==>
              AfterTag(Marked(t, Ssml, inside, n, isSpace)) == Marked(AfterTag(t), Ssml, false, n, isSpace)
  {
    hide Marked, AfterTag, InsideAfter;
    var h := MARK_HEAD;
    MarkedPrefix(t, h, inside, n, isSpace);
    InsideHead(inside);
    if h <= t {
      var rest := t[|h|..];
      assert t == h + rest;
      AfterTagSkips(h, rest);
      AfterTagSkips(h, Marked(rest, Ssml, true, n, isSpace));
      AfterTagOfMarked(rest, n, isSpace);
    }
  }

  lemma InsideHead(inside: bool)
    ensures InsideAfter(MARK_HEAD, inside)
  {
    var h := MARK_HEAD;
    PlainKeepsInside(h[1..], true);
    assert InsideAfter(h, inside) == InsideAfter(h[1..], true);
  }

  lemma MarkAfterIsDeleted(c: char, n: nat, rest: string)
    requires c != '<'
    ensures StripMarks([c] + Mark(n) + rest) == [c] + StripMarks(rest)
  {
    hide StripMarks, Mark;
    CopiedWithoutTag([c], Mark(n) + rest);
    MarkIsDeleted(n, rest);
    assert [c] + Mark(n) + rest == [c] + (Mark(n) + rest);
  }

  lemma StripMarksStep(s: string, c: char, x: string)
    requires s == [c] + x && !(MARK_HEAD <= s)
    ensures StripMarks(s) == [c] + StripMarks(x)
  {
    assert s[1..] == x;
  }

  /** SSML mode: deleting marks does not see the inserted ones, whatever the message. */
  lemma {:induction false} SsmlMarksAreDeleted(t: string, inside: bool, n: nat, isSpace: char -> bool)
    ensures StripMarks(Marked(t, Ssml, inside, n, isSpace)) == StripMarks(t)
    decreases |t|
  {
    var m := Marked(t, Ssml, inside, n, isSpace);
    MarkHeadInMarked(t, inside, n, isSpace);
    if t == [] {
    } else if MARK_HEAD <= t {
      SsmlMarksAreDeleted(AfterTag(t), false, n, isSpace);
      assert StripMarks(m) == StripMarks(AfterTag(m));
    } else {
      var n' := if Breaks(t, inside, isSpace) then n + 1 else n;
      var rest := Marked(t[1..], Ssml, Inside(t[0], Ssml, inside), n', isSpace);
      SsmlMarksAreDeleted(t[1..], Inside(t[0], Ssml, inside), n', isSpace);
      StripMarksStep(t, t[0], t[1..]);
      if Breaks(t, inside, isSpace) {
        MarkAfterIsDeleted(t[0], n, rest);
      } else {
        StripMarksStep(m, t[0], rest);
      }
    }
  }

  lemma {:induction false} StripMarksShrinks(s: string)
    ensures |StripMarks(s)| <= |s|
    decreases |s|
  {
    if s == [] {
    } else if MARK_HEAD <= s {
      StripMarksShrinks(AfterTag(s));
    } else {
      StripMarksShrinks(s[1..]);
    }
  }

  lemma {:induction false} StripMarksIsIdentity(s: string)
    ensures StripMarks(s) == s <==> forall j: nat :: !At(s, j, MARK_HEAD)
    decreases |s|
  {
    AtIsPrefix(s, 0, MARK_HEAD);
    assert s[0..] == s;
    if s == [] {
    } else if MARK_HEAD <= s {
      StripMarksShrinks(AfterTag(s));
    } else {
      StripMarksIsIdentity(s[1..]);
      forall j: nat
        ensures At(s[1..], j, MARK_HEAD) <==> At(s, j + 1, MARK_HEAD)
      {
        if j + 1 <= |s| {
          AtIsPrefix(s[1..], j, MARK_HEAD);
          AtIsPrefix(s, j + 1, MARK_HEAD);
          assert s[1..][j..] == s[j + 1..];
        }
      }
      assert StripMarks(s)[1..] == StripMarks(s[1..]);
      if forall j: nat :: !At(s[1..], j, MARK_HEAD) {
        forall j: nat
          ensures !At(s, j, MARK_HEAD)
        {
          assert j > 0 ==> (At(s[1..], j - 1, MARK_HEAD) <==> At(s, j, MARK_HEAD));
        }
      }
    }
  }

  /** SSML mode: deleting what was inserted leaves <speak> and the message exactly if that had no mark head. */
  lemma SsmlDeletionIsExact(t: string, isSpace: char -> bool)
    ensures StrippedMarks(Inserted(t, Ssml, isSpace), Ssml) == SPEAK + t
            <==> forall j: nat :: !At(t, j, MARK_HEAD)
  {
    SsmlMarksAreDeleted(t, false, 0, isSpace);
    StripMarksIsIdentity(t);
    if SPEAK + StripMarks(t) == SPEAK + t {
      assert (SPEAK + StripMarks(t))[|SPEAK|..] == StripMarks(t) && (SPEAK + t)[|SPEAK|..] == t;
    }
  }

  // ---------------------------------------------------------------- speaking the rest again

  lemma {:induction false} EscapedIsIdentity(t: string)
    ensures |Escaped(t)| >= |t|
    ensures Escaped(t) == t <==> forall i | 0 <= i < |t| :: !Special(t[i])
  {
    if t != [] {
      EscapedIsIdentity(t[1..]);
      if Special(t[0]) {
        assert |Escaped(t)| > |t|;
      } else {
        assert Escaped(t)[1..] == Escaped(t[1..]);
      }
    }
  }

  /** What reload_message queues after a pause at mark k, spoken again in TEXT mode: the escaped rest of the text.
      It is the rest of the text exactly if that holds none of the escaped characters. */
  lemma RespokenRest(t: string, k: nat, isSpace: char -> bool)
    requires k < |BreakPoints(t, isSpace)|
    ensures var u := t[BreakPoints(t, isSpace)[k]..];
            var f := FindIndexMark(Inserted(t, Text, isSpace), k);
            && f.Rest?
            && var queued := StrippedMarks(f.text, Text);
               var spoken := Stripped(Inserted(queued, Text, isSpace), false);
               && spoken == Escaped(u)
               && (spoken == u <==> forall i | 0 <= i < |u| :: !Special(u[i]))
  {
    var u := t[BreakPoints(t, isSpace)[k]..];
    FindInInserted(t, k, isSpace);
    MarkedIsEscaped(u, k + 1, isSpace);
    EscapedHasNoTag(u);
    CutEscaped(Escaped(u));
    TextMarksAreInvisible(Escaped(u), isSpace);
    EscapedIsIdentity(u);
  }

  lemma CutEscaped(e: string)
    requires '<' !in e
    ensures Cut(e + END_SPEAK) == e
  {
    var s := e + END_SPEAK;
    forall j: nat | j < |e|
      ensures !At(s, j, END_SPEAK)
    {
      assert e[j] in e;
      NotAt(s, j, END_SPEAK, 0);
    }
    assert s[|e|..|e| + |END_SPEAK|] == END_SPEAK;
    IndexIs(s, END_SPEAK, |e|);
  }
}
