/** Messages as dot-stuffed lines: escape_dot and output_speak of src/server/output.c on the sending side, the text of
    a SPEAK command of src/modules/module_process.c on the receiving side. */
module DotFraming {
  import opened Collections
  import opened Bytes

  const DOT: Byte := 46
  const DOT_LINE: seq<Byte> := [DOT, LF]
  const SPACE: seq<Byte> := [32]
  const SPACE_WORD: seq<Byte> := [115, 112, 97, 99, 101] // "space"

  // ---------------------------------------------------------------- sending

  /** Every dot at the start of a line is doubled. */
  function Escaped(t: seq<Byte>, atStart: bool): seq<Byte> {
    if t == [] then []
    else (if atStart && t[0] == DOT then [DOT, DOT] else [t[0]]) + Escaped(t[1..], t[0] == LF)
  }

  lemma EscapedStep(t: seq<Byte>, atStart: bool)
    requires t != []
    ensures Escaped(t, atStart) ==
            (if atStart && t[0] == DOT then [DOT, DOT] else [t[0]]) + Escaped(t[1..], t[0] == LF)
  {
  }

  /** strstr for a newline and a dot, from a place on: the place, or -1. */
  function NextDotLine(t: seq<Byte>, from: nat): (r: int)
    ensures r == -1 || (from <= r && r + 1 < |t| && t[r] == LF && t[r + 1] == DOT)
    ensures forall j | from <= j < |t| - 1 && (r == -1 || j < r) :: !(t[j] == LF && t[j + 1] == DOT)
    decreases |t| - from
  {
    if from + 1 >= |t| then -1
    else if t[from] == LF && t[from + 1] == DOT then from
    else NextDotLine(t, from + 1)
  }

  /** Up to the next line that begins with a dot the text is copied. */
  lemma {:induction false} EscapedCopies(t: seq<Byte>, from: nat, end: nat, atStart: bool)
    requires from <= end <= |t|
    requires atStart && from < end ==> t[from] != DOT
    requires forall j | from <= j < end - 1 :: !(t[j] == LF && t[j + 1] == DOT)
    ensures Escaped(t[from..], atStart) ==
            t[from..end] + Escaped(t[end..], if from == end then atStart else t[end - 1] == LF)
    decreases end - from
  {
    if from < end {
      EscapedStep(t[from..], atStart);
      hide Escaped;
      assert t[from..][1..] == t[from + 1..];
      EscapedCopies(t, from + 1, end, t[from] == LF);
      assert t[from..end] == [t[from]] + t[from + 1..end];
    } else {
      assert t[from..end] == [];
    }
  }

  lemma EscapedAtDot(t: seq<Byte>, s: nat)
    requires s + 1 < |t| && t[s] == LF && t[s + 1] == DOT
    ensures Escaped(t[s + 1..], true) == [DOT, DOT] + Escaped(t[s + 2..], false)
  {
    assert t[s + 1..][1..] == t[s + 2..];
  }

  lemma NothingToEscape(t: seq<Byte>, p: nat, atStart: bool)
    requires p <= |t| && (atStart && p < |t| ==> t[p] != DOT) && NextDotLine(t, p) == -1
    ensures Escaped(t[p..], atStart) == t[p..]
  {
    EscapedCopies(t, p, |t|, atStart);
  }

  lemma Joined(a: seq<Byte>, rest: seq<Byte>)
    ensures a + [LF] + ([DOT, DOT] + rest) == a + [LF, DOT, DOT] + rest
  {
  }

  /** One round of escape_dot. */
  lemma EscapedRound(t: seq<Byte>, p: nat, atStart: bool)
    requires p <= |t| && (atStart && p < |t| ==> t[p] != DOT) && NextDotLine(t, p) != -1
    ensures var s := NextDotLine(t, p);
            Escaped(t[p..], atStart) == t[p..s] + [LF, DOT, DOT] + Escaped(t[s + 2..], false)
  {
    hide Escaped;
    var s := NextDotLine(t, p);
    EscapedCopies(t, p, s + 1, atStart);
    assert t[s] == LF;
    var tail := Escaped(t[s + 1..], t[s] == LF);
    assert Escaped(t[p..], atStart) == t[p..s + 1] + tail;
    EscapedAtDot(t, s);
    assert t[p..s + 1] == t[p..s] + [LF];
    Joined(t[p..s], Escaped(t[s + 2..], false));
  }

  /** escape_dot */
  method EscapeDot(otext: seq<Byte>) returns (r: seq<Byte>)
    ensures r == Escaped(otext, true)
  {
    hide Escaped, NextDotLine;
    var ntext: seq<Byte> := [];
    var p := 0;
    if otext != [] && otext[0] == DOT {
      ntext := [DOT, DOT];
      p := 1;
      EscapedStep(otext, true);
    }
    ghost var first := p == 0;
    ghost var all := Escaped(otext, true);
    assert otext[0..] == otext;
    assert all == ntext + Escaped(otext[p..], first);
    var s := NextDotLine(otext, p);
    while s != -1
      invariant p <= |otext| && s == NextDotLine(otext, p)
      invariant p == 0 ==> ntext == []
      invariant first && p < |otext| ==> otext[p] != DOT
      invariant all == ntext + Escaped(otext[p..], first)
      decreases |otext| - p
    {
      EscapedRound(otext, p, first);
      var copied := otext[p..s] + [LF, DOT, DOT];
      assert all == ntext + copied + Escaped(otext[s + 2..], false);
      ntext := ntext + copied;
      p := s + 2;
      first := false;
      s := NextDotLine(otext, p);
    }
    NothingToEscape(otext, p, first);
    r := if p == 0 then otext else ntext + otext[p..];
  }

  /** What output_speak puts on the pipe for a message text: a lone space travels as a word. */
  function Sent(t: seq<Byte>): seq<Byte> {
    var e := Escaped(t, true);
    (if e == SPACE then SPACE_WORD else e) + [LF] + DOT_LINE
  }

  // ---------------------------------------------------------------- receiving

  /** The first line with its newline, or everything. */
  function FirstLine(s: seq<Byte>): (l: seq<Byte>)
    ensures l <= s
    ensures LF in s ==> IsLine(l)
  {
    if s == [] then [] else if s[0] == LF then [LF] else [s[0]] + FirstLine(s[1..])
  }

  lemma {:induction false} FirstLineIs(l: seq<Byte>, rest: seq<Byte>)
    requires IsLine(l)
    ensures FirstLine(l + rest) == l
  {
    if |l| > 1 {
      assert l[0] in l[..|l| - 1];
      assert (l + rest)[1..] == l[1..] + rest;
      assert l[1..][..|l| - 2] == l[1..|l| - 1];
      FirstLineIs(l[1..], rest);
    }
  }

  function Unstuffed(line: seq<Byte>): seq<Byte> {
    if line != [] && line[0] == DOT then line[1..] else line
  }

  /** What the receiving loop has collected at the dot line, with how many lines, and what follows it. */
  datatype Body = Body(text: seq<Byte>, nlines: nat, rest: seq<Byte>)

  function Received(s: seq<Byte>, text: seq<Byte>, nlines: nat): Option<Body>
    decreases |s|
  {
    if LF !in s then None
    else
      var l := FirstLine(s);
      var rest := s[|l|..];
      var line := UntilNul(l);
      if line == DOT_LINE then Some(Body(text, nlines, rest))
      else Received(rest, text + Unstuffed(line), nlines + 1)
  }

  // ---------------------------------------------------------------- what is sent is received

  lemma {:induction false} EscapedSegment(t: seq<Byte>, atStart: bool)
    requires LF !in t
    ensures LF !in Escaped(t, atStart) && (0 !in t ==> 0 !in Escaped(t, atStart))
    ensures !atStart ==> Escaped(t, atStart) == t
    ensures atStart ==> Escaped(t, atStart) == if t != [] && t[0] == DOT then [DOT] + t else t
  {
    if t != [] {
      assert t[0] in t;
      EscapedStep(t, atStart);
      hide Escaped;
      EscapedSegment(t[1..], false);
    }
  }

  lemma {:induction false} EscapedSplit(a: seq<Byte>, u: seq<Byte>, atStart: bool)
    requires LF !in a
    ensures Escaped(a + [LF] + u, atStart) == Escaped(a, atStart) + [LF] + Escaped(u, true)
  {
    var t := a + [LF] + u;
    if a == [] {
      assert t[1..] == u && t[0] == LF;
    } else {
      assert a[0] in a && t[0] == a[0] && t[1..] == a[1..] + [LF] + u;
      EscapedSplit(a[1..], u, false);
    }
  }

  /** A stuffed line is never the dot line, and comes out unstuffed. */
  lemma ReceivedStep(l: seq<Byte>, rest: seq<Byte>, text: seq<Byte>, n: nat)
    requires IsLine(l)
    ensures Received(l + rest, text, n) ==
            if UntilNul(l) == DOT_LINE then Some(Body(text, n, rest))
            else Received(rest, text + Unstuffed(UntilNul(l)), n + 1)
  {
    FirstLineIs(l, rest);
    assert l[|l| - 1] == LF && LF in l + rest;
    assert (l + rest)[|l|..] == rest;
  }

  lemma LineArrives(a: seq<Byte>, rest: seq<Byte>, text: seq<Byte>, n: nat)
    requires LF !in a && 0 !in a
    ensures Received(Escaped(a, true) + [LF] + rest, text, n) == Received(rest, text + (a + [LF]), n + 1)
  {
    var e := Escaped(a, true);
    EscapedSegment(a, true);
    hide Escaped, Received;
    var l := e + [LF];
    assert l[..|l| - 1] == e;
    assert l != DOT_LINE by {
      assert e != [DOT];
    }
    assert Unstuffed(l) == a + [LF];
    ReceivedStep(l, rest, text, n);
  }

  lemma DotLineEnds(tail: seq<Byte>, text: seq<Byte>, n: nat)
    ensures Received(DOT_LINE + tail, text, n) == Some(Body(text, n, tail))
  {
    ReceivedStep(DOT_LINE, tail, text, n);
  }

  function LineCount(t: seq<Byte>): nat {
    if t == [] then 1 else LineCount(t[1..]) + if t[0] == LF then 1 else 0
  }

  lemma {:induction false} LineCountSplit(a: seq<Byte>, u: seq<Byte>)
    requires LF !in a
    ensures LineCount(a) == 1 && LineCount(a + [LF] + u) == 1 + LineCount(u)
  {
    var t := a + [LF] + u;
    if a == [] {
      assert t[1..] == u;
    } else {
      assert a[0] in a && t[0] == a[0] && t[1..] == a[1..] + [LF] + u;
      LineCountSplit(a[1..], u);
    }
  }

  function FirstLf(t: seq<Byte>): (k: nat)
    ensures k <= |t| && LF !in t[..k] && (k < |t| ==> t[k] == LF)
  {
    if t == [] || t[0] == LF then 0 else 1 + FirstLf(t[1..])
  }

  /** A message text as it travels, and what follows it. */
  function Wire(t: seq<Byte>, tail: seq<Byte>): seq<Byte> {
    Escaped(t, true) + [LF] + (DOT_LINE + tail)
  }

  lemma WireSplit(a: seq<Byte>, u: seq<Byte>, tail: seq<Byte>)
    requires LF !in a
    ensures Wire(a + [LF] + u, tail) == Escaped(a, true) + [LF] + Wire(u, tail)
  {
    EscapedSplit(a, u, true);
  }

  lemma JoinedText(text: seq<Byte>, a: seq<Byte>, u: seq<Byte>)
    ensures text + (a + [LF]) + u + [LF] == text + (a + [LF] + u) + [LF]
  {
  }

  lemma LastLineArrives(t: seq<Byte>, text: seq<Byte>, n: nat, tail: seq<Byte>)
    requires 0 !in t && LF !in t
    ensures Received(Wire(t, tail), text, n) == Some(Body(text + t + [LF], n + 1, tail))
  {
    hide Received, Escaped;
    LineArrives(t, DOT_LINE + tail, text, n);
    DotLineEnds(tail, text + (t + [LF]), n + 1);
    assert text + (t + [LF]) == text + t + [LF];
  }

  lemma FirstSegmentArrives(a: seq<Byte>, u: seq<Byte>, text: seq<Byte>, n: nat, tail: seq<Byte>)
    requires LF !in a && 0 !in a
    ensures Received(Wire(a + [LF] + u, tail), text, n) == Received(Wire(u, tail), text + (a + [LF]), n + 1)
  {
    WireSplit(a, u, tail);
    LineArrives(a, Wire(u, tail), text, n);
  }

  lemma Parts(t: seq<Byte>, k: nat)
    requires k < |t| && t[k] == LF && 0 !in t
    ensures t == t[..k] + [LF] + t[k + 1..] && 0 !in t[..k] && 0 !in t[k + 1..]
  {
  }

  /** Any text without NUL, stuffed and ended by the dot line, is collected as it was, with a newline behind it, and
      what follows stays. */
  lemma {:induction false} EscapedArrives(t: seq<Byte>, text: seq<Byte>, n: nat, tail: seq<Byte>)
    requires 0 !in t
    ensures Received(Wire(t, tail), text, n) == Some(Body(text + t + [LF], n + LineCount(t), tail))
    decreases |t|
  {
    hide Received;
    var k := FirstLf(t);
    if k == |t| {
      assert t[..k] == t;
      LastLineArrives(t, text, n, tail);
      LineCountSplit(t, []);
    } else {
      var a, u := t[..k], t[k + 1..];
      Parts(t, k);
      LineCountSplit(a, u);
      FirstSegmentArrives(a, u, text, n, tail);
      EscapedArrives(u, text + (a + [LF]), n + 1, tail);
      JoinedText(text, a, u);
    }
  }

  // ---------------------------------------------------------------- lines received again

  lemma ReceivedUnfold(s: seq<Byte>, text: seq<Byte>, n: nat)
    requires LF in s
    ensures FirstLine(s) != [] && |s[|FirstLine(s)|..]| < |s|
    ensures var line, rest := UntilNul(FirstLine(s)), s[|FirstLine(s)|..];
            Received(s, text, n) ==
            if line == DOT_LINE then Some(Body(text, n, rest)) else Received(rest, text + Unstuffed(line), n + 1)
  {
  }

  lemma ReceivedNeedsLine(s: seq<Byte>, text: seq<Byte>, n: nat)
    ensures Received(s, text, n).Some? ==> LF in s
  {
  }

  /** What is received is added to what was there. */
  lemma {:induction false} ReceivedFrom(s: seq<Byte>, text: seq<Byte>, n: nat)
    ensures var a, b := Received(s, text, n), Received(s, [], 0);
            && (a.Some? <==> b.Some?)
            && (a.Some? ==>
                  && a.value == Body(text + b.value.text, n + b.value.nlines, b.value.rest)
                  && |b.value.rest| < |s|)
    decreases |s|
  {
    hide Received, FirstLine, UntilNul, Unstuffed;
    ReceivedNeedsLine(s, text, n);
    ReceivedNeedsLine(s, [], 0);
    if LF in s {
      ReceivedUnfold(s, text, n);
      ReceivedUnfold(s, [], 0);
      var line, rest := UntilNul(FirstLine(s)), s[|FirstLine(s)|..];
      assert text + [] == text && [] + Unstuffed(line) == Unstuffed(line);
      if line != DOT_LINE {
        ReceivedFrom(rest, text + Unstuffed(line), n + 1);
        ReceivedFrom(rest, Unstuffed(line), 1);
        if Received(rest, [], 0).Some? {
          Reassociate(text, Unstuffed(line), Received(rest, [], 0).value.text);
        }
      }
    }
  }

  /** The dot line stands where a line begins. */
  predicate DotLineAt(s: seq<Byte>, i: int) {
    0 <= i < |s| - 1 && (i == 0 || s[i - 1] == LF) && s[i] == DOT && s[i + 1] == LF
  }

  /** No NUL and no dot line. */
  ghost predicate Clean(s: seq<Byte>) {
    0 !in s && forall i :: !DotLineAt(s, i)
  }

  /** Whole lines. */
  predicate Whole(s: seq<Byte>) {
    s == [] || s[|s| - 1] == LF
  }

  lemma CleanLine(l: seq<Byte>)
    requires IsLine(l) && 0 !in l && l != DOT_LINE
    ensures Clean(l)
  {
    forall i
      ensures !DotLineAt(l, i)
    {
      assert forall k | 0 <= k < |l| - 1 :: l[k] in l[..|l| - 1];
    }
  }

  lemma CleanJoin(a: seq<Byte>, b: seq<Byte>)
    requires Clean(a) && Clean(b) && Whole(a)
    ensures Clean(a + b)
  {
    forall i
      ensures !DotLineAt(a + b, i)
    {
      assert !DotLineAt(a, i) && !DotLineAt(b, i - |a|);
    }
  }

  lemma CleanSplit(a: seq<Byte>, b: seq<Byte>)
    requires Clean(a + b) && Whole(a)
    ensures Clean(a) && Clean(b)
  {
    assert forall x | x in a || x in b :: x in a + b;
    forall i
      ensures !DotLineAt(a, i) && !DotLineAt(b, i)
    {
      assert !DotLineAt(a + b, i) && !DotLineAt(a + b, |a| + i);
    }
  }

  lemma CleanIsNoDotLine(s: seq<Byte>)
    requires Clean(s)
    ensures 0 !in s && s != DOT_LINE
  {
    assert !DotLineAt(s, 0);
  }

  lemma FirstLineSplits(s: seq<Byte>)
    requires s != [] && Clean(s) && Whole(s)
    ensures var l := FirstLine(s); IsLine(l) && 0 !in l && l != DOT_LINE && s == l + s[|l|..]
    ensures var l := FirstLine(s); Clean(s[|l|..]) && Whole(s[|l|..])
  {
    hide Clean, FirstLine;
    assert s[|s| - 1] in s;
    var l := FirstLine(s);
    assert s == l + s[|l|..];
    CleanSplit(l, s[|l|..]);
    CleanIsNoDotLine(l);
  }

  /** Whole clean lines in front of a body add at least a byte and a line each to what is received. */
  lemma {:induction false} ReceivedAgain(back: seq<Byte>, s: seq<Byte>, text: seq<Byte>, n: nat)
    requires Clean(back) && Whole(back) && Received(s, text, n).Some?
    ensures var a, b := Received(back + s, text, n), Received(s, text, n);
            && a.Some? && a.value.rest == b.value.rest
            && |a.value.text| >= |b.value.text| && a.value.nlines >= b.value.nlines
            && (back != [] ==> |a.value.text| > |b.value.text|)
    decreases |back|
  {
    hide Clean, Whole, Received, FirstLine, UntilNul;
    if back == [] {
      assert back + s == s;
    } else {
      FirstLineSplits(back);
      var l := FirstLine(back);
      var more := back[|l|..];
      Reassociate(l, more, s);
      ReceivedStep(l, more + s, text, n);
      assert |Unstuffed(l)| >= 1;
      ReceivedFrom(s, text, n);
      ReceivedFrom(s, text + Unstuffed(l), n + 1);
      ReceivedAgain(more, s, text + Unstuffed(l), n + 1);
    }
  }
}
