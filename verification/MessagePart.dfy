/** module_get_message_part of src/modules/module_utils.c: a message in parts of at most maxlen bytes. */
module MessagePart {
  import opened Collections
  import opened Bytes

  const SIZE_T := 0x1_0000_0000_0000_0000
  const CR: Byte := 13
  const BLANK: Byte := 32

  /** The bytes a lead byte announces behind it. */
  function Need(c: Byte): (n: nat)
    ensures n <= 5
  {
    if 192 <= c < 224 then 1
    else if 224 <= c < 240 then 2
    else if 240 <= c < 248 then 3
    else if 248 <= c < 252 then 4
    else if 252 <= c < 254 then 5
    else 0
  }

  /** size_t subtraction wraps around. */
  function Minus(a: nat, b: nat): nat
    requires b < SIZE_T
  {
    if b <= a then a - b else SIZE_T + a - b
  }

  /** A character of a C string; the terminator is the last one there is. */
  function CharAt(m: seq<Byte>, p: nat): Byte
    requires p <= |m|
  {
    if p < |m| then m[p] else 0
  }

  /** Character p cannot become byte i of the part. */
  predicate Blocked(m: seq<Byte>, p: nat, i: nat, maxlen: nat)
    requires p <= |m|
  {
    var c := CharAt(m, p);
    c == 0 || (Need(c) > 0 && i >= Minus(maxlen, Need(c)))
  }

  predicate Gap(c: Byte) {
    c == BLANK || c == LF || c == CR
  }

  /** The part ends behind character p, which became its byte i. */
  predicate Breaks(m: seq<Byte>, p: nat, i: nat, dividers: seq<Byte>)
    requires p < |m|
  {
    || (|m| - 1 - i > 2 && Gap(CharAt(m, p + 1)) && m[p] in dividers)
    || (|m| - 1 - i > 2 && m[p] == LF && CharAt(m, p + 1) == LF)
    || (|m| - 1 - i > 4 && m[p] == CR && CharAt(m, p + 1) == LF && CharAt(m, p + 2) == CR && CharAt(m, p + 3) == LF)
  }

  /** Where the part that begins at `pos` ends, looked for from its byte i on. */
  function PartEnd(m: seq<Byte>, pos: nat, i: nat, maxlen: nat, dividers: seq<Byte>): (e: nat)
    requires pos + i <= |m| && i <= maxlen
    ensures i <= e <= maxlen && pos + e <= |m|
    decreases maxlen - i
  {
    if i == maxlen || Blocked(m, pos + i, i, maxlen) then i
    else if Breaks(m, pos + i, i, dividers) then i + 1
    else PartEnd(m, pos, i + 1, maxlen, dividers)
  }

  // ---------------------------------------------------------------- where a part ends

  /** A part that begins at `pos` is cut behind place p: at a divider before a blank, a newline or a carriage return, or
      at the first of two newlines, or of CR LF CR LF; provided the message has more than 3, or 5, bytes beyond the
      number of those in the part before p. */
  predicate CutAt(m: seq<Byte>, pos: nat, p: nat, dividers: seq<Byte>)
    requires pos <= p < |m|
  {
    || (|m| > p - pos + 3 && m[p] in dividers && p + 1 < |m| && (m[p + 1] == 32 || m[p + 1] == 10 || m[p + 1] == 13))
    || (|m| > p - pos + 3 && [10, 10] <= m[p..])
    || (|m| > p - pos + 5 && [13, 10, 13, 10] <= m[p..])
  }

  /** A lead byte of UTF-8 at place p announces more bytes than a part that begins at `pos` has room for. */
  predicate TooLong(m: seq<Byte>, pos: nat, p: nat, maxlen: nat)
    requires pos <= p < |m|
  {
    var c, i := m[p], p - pos;
    || (c / 32 == 6 && maxlen >= 1 && i >= maxlen - 1)
    || (c / 16 == 14 && maxlen >= 2 && i >= maxlen - 2)
    || (c / 8 == 30 && maxlen >= 3 && i >= maxlen - 3)
    || (c / 4 == 62 && maxlen >= 4 && i >= maxlen - 4)
    || (c / 2 == 126 && maxlen >= 5 && i >= maxlen - 5)
  }

  /** From `pos` to `end` is a part: nothing in it has no room, nothing before its last byte cuts it, and it ends with
      the message, with its room, before a character that has no room, or where it is cut. */
  predicate IsPart(m: seq<Byte>, pos: nat, end: nat, maxlen: nat, dividers: seq<Byte>) {
    && pos <= end <= |m| && end - pos <= maxlen
    && (forall p | pos <= p < end :: !TooLong(m, pos, p, maxlen))
    && (forall p | pos <= p < end - 1 :: !CutAt(m, pos, p, dividers))
    && (end == |m| || end == pos + maxlen || TooLong(m, pos, end, maxlen)
        || (end > pos && CutAt(m, pos, end - 1, dividers)))
  }

  lemma TooLongIsBlocked(m: seq<Byte>, pos: nat, p: nat, maxlen: nat)
    requires pos <= p < |m| && m[p] != 0 && p - pos < maxlen < SIZE_T
    ensures Blocked(m, p, p - pos, maxlen) <==> TooLong(m, pos, p, maxlen)
  {
  }

  lemma CutIsBreak(m: seq<Byte>, pos: nat, p: nat, dividers: seq<Byte>)
    requires pos <= p < |m| && 0 !in m
    ensures Breaks(m, p, p - pos, dividers) <==> CutAt(m, pos, p, dividers)
  {
    assert p + 1 < |m| ==> m[p + 1] == m[p..][1];
    assert p + 3 < |m| ==> m[p + 2] == m[p..][2] && m[p + 3] == m[p..][3];
  }

  /** Up to `end` the part goes on. */
  predicate GoesOn(m: seq<Byte>, pos: nat, end: nat, maxlen: nat, dividers: seq<Byte>) {
    pos <= end <= |m| && forall p | pos <= p < end :: !TooLong(m, pos, p, maxlen) && !CutAt(m, pos, p, dividers)
  }

  lemma {:induction false} PartEndIsPart(m: seq<Byte>, pos: nat, i: nat, maxlen: nat, dividers: seq<Byte>)
    requires i <= maxlen < SIZE_T && 0 !in m && GoesOn(m, pos, pos + i, maxlen, dividers)
    ensures IsPart(m, pos, pos + PartEnd(m, pos, i, maxlen, dividers), maxlen, dividers)
    decreases maxlen - i
  {
    hide Blocked, Breaks, CutAt, TooLong, PartEnd;
    PartEndStep(m, pos, i, maxlen, dividers);
    if i < maxlen && pos + i < |m| {
      assert m[pos + i] in m;
      TooLongIsBlocked(m, pos, pos + i, maxlen);
      CutIsBreak(m, pos, pos + i, dividers);
      if !TooLong(m, pos, pos + i, maxlen) && !CutAt(m, pos, pos + i, dividers) {
        PartEndIsPart(m, pos, i + 1, maxlen, dividers);
      }
    } else {
      EndBlocks(m, i, maxlen);
    }
  }

  lemma EndBlocks(m: seq<Byte>, i: nat, maxlen: nat)
    ensures Blocked(m, |m|, i, maxlen)
  {
  }

  /** Only one part begins at a place of the message. */
  lemma PartIsUnique(m: seq<Byte>, pos: nat, end: nat, end': nat, maxlen: nat, dividers: seq<Byte>)
    requires IsPart(m, pos, end, maxlen, dividers) && IsPart(m, pos, end', maxlen, dividers)
    ensures end == end'
  {
    hide CutAt, TooLong;
  }

  method IsDivider(c: Byte, dividers: seq<Byte>) returns (found: bool)
    ensures found <==> c in dividers
  {
    for n := 0 to |dividers|
      invariant c !in dividers[..n]
    {
      if c == dividers[n] {
        return true;
      }
    }
    return false;
  }

  /** module_get_message_part: `pos'` is the new *pos. */
  method GetMessagePart(message: seq<Byte>, part: array<Byte>, pos: nat, maxlen: nat, dividers: seq<Byte>)
    returns (r: int, pos': nat)
    requires 0 !in message && pos <= |message| && 1 <= maxlen < part.Length && maxlen < SIZE_T
    modifies part
    ensures pos == |message| ==> r == -1 && pos' == pos && part[..] == old(part[..])
    ensures pos < |message| ==>
              && r == PartEnd(message, pos, 0, maxlen, dividers) && pos' == pos + r
              && part[..r] == message[pos..pos'] && part[r] == 0
              && IsPart(message, pos, pos', maxlen, dividers)
  {
    hide PartEnd, IsPart;
    PartEndIsPart(message, pos, 0, maxlen, dividers);
    pos' := pos;
    if CharAt(message, pos) == 0 {
      return -1, pos;
    }
    var len := |message|;
    var i := 0;
    while i <= maxlen - 1
      invariant i <= maxlen && pos' == pos + i <= |message|
      invariant part[..i] == message[pos..pos']
      invariant PartEnd(message, pos, 0, maxlen, dividers) == PartEnd(message, pos, i, maxlen, dividers)
    {
      PartEndStep(message, pos, i, maxlen, dividers);
      var c := CharAt(message, pos');
      if Need(c) > 0 && i >= Minus(maxlen, Need(c)) {
        c := 0;
      }
      part[i] := c;
      if part[i] == 0 {
        return i, pos';
      }
      assert part[..i + 1] == message[pos..pos' + 1];
      if len - 1 - i > 2 {
        if Gap(CharAt(message, pos' + 1)) {
          var found := IsDivider(part[i], dividers);
          if found {
            part[i + 1] := 0;
            return i + 1, pos' + 1;
          }
        }
        if message[pos'] == LF && CharAt(message, pos' + 1) == LF {
          part[i + 1] := 0;
          return i + 1, pos' + 1;
        }
      }
      if len - 1 - i > 4 {
        if message[pos'] == CR && CharAt(message, pos' + 1) == LF && CharAt(message, pos' + 2) == CR
           && CharAt(message, pos' + 3) == LF
        {
          part[i + 1] := 0;
          return i + 1, pos' + 1;
        }
      }
      pos' := pos' + 1;
      i := i + 1;
    }
    PartEndStep(message, pos, i, maxlen, dividers);
    part[i] := 0;
    r := i;
  }

  lemma PartEndStep(m: seq<Byte>, pos: nat, i: nat, maxlen: nat, dividers: seq<Byte>)
    requires pos + i <= |m| && i <= maxlen
    ensures PartEnd(m, pos, i, maxlen, dividers) ==
            if i == maxlen || Blocked(m, pos + i, i, maxlen) then i
            else if Breaks(m, pos + i, i, dividers) then i + 1
            else PartEnd(m, pos, i + 1, maxlen, dividers)
  {
  }

  /** A part is empty exactly if it would have to begin with a character one byte too long; the position then stays. */
  lemma EmptyPart(m: seq<Byte>, pos: nat, maxlen: nat, dividers: seq<Byte>)
    requires 0 !in m && pos < |m| && 1 <= maxlen < SIZE_T
    ensures PartEnd(m, pos, 0, maxlen, dividers) == 0 <==> Need(m[pos]) == maxlen
  {
    assert m[pos] in m;
    PartEndStep(m, pos, 0, maxlen, dividers);
  }

  // ---------------------------------------------------------------- characters

  predicate Continuation(c: Byte) {
    128 <= c < 192
  }

  /** A lead byte and what it announces. */
  predicate IsChar(s: seq<Byte>) {
    && s != [] && (s[0] < 128 || Need(s[0]) > 0) && |s| == Need(s[0]) + 1
    && forall j | 1 <= j < |s| :: Continuation(s[j])
  }

  /** Whole characters. */
  predicate Utf8(s: seq<Byte>) {
    s == [] || (Need(s[0]) < |s| && IsChar(s[..Need(s[0]) + 1]) && Utf8(s[Need(s[0]) + 1..]))
  }

  lemma Utf8Step(c: seq<Byte>, rest: seq<Byte>)
    requires IsChar(c)
    ensures Utf8(c + rest) <==> Utf8(rest)
  {
    assert (c + rest)[..Need(c[0]) + 1] == c && (c + rest)[Need(c[0]) + 1..] == rest;
  }

  /** No character needs more than a part. */
  predicate Fits(m: seq<Byte>, maxlen: nat) {
    forall c | c in m :: Need(c) < maxlen
  }

  predicate LetIn(m: seq<Byte>, pos: nat, p: nat, maxlen: nat)
    requires pos <= p <= |m|
  {
    !Blocked(m, p, p - pos, maxlen)
  }

  /** Inside a character a part does not end. */
  lemma {:induction false} NoEndInside(m: seq<Byte>, pos: nat, i: nat, last: nat, maxlen: nat, dividers: seq<Byte>)
    requires i <= last < maxlen && pos + last < |m| && maxlen < SIZE_T
    requires forall p | pos + i <= p <= pos + last :: LetIn(m, pos, p, maxlen)
    requires forall p | pos + i < p <= pos + last :: Continuation(m[p])
    ensures PartEnd(m, pos, i, maxlen, dividers) == PartEnd(m, pos, last, maxlen, dividers)
    decreases last - i
  {
    if i < last {
      PartEndStep(m, pos, i, maxlen, dividers);
      hide PartEnd;
      assert LetIn(m, pos, pos + i, maxlen);
      assert Continuation(m[pos + i + 1]);
      NoEndInside(m, pos, i + 1, last, maxlen, dividers);
    }
  }

  lemma CharIsLetIn(m: seq<Byte>, pos: nat, i: nat, maxlen: nat)
    requires i < maxlen < SIZE_T && pos + i < |m| && 0 !in m && Fits(m, maxlen) && LetIn(m, pos, pos + i, maxlen)
    requires var w := Need(m[pos + i]) + 1; pos + i + w <= |m| && IsChar(m[pos + i..pos + i + w])
    ensures var w := Need(m[pos + i]) + 1;
            && i + w <= maxlen
            && (forall p | pos + i <= p < pos + i + w :: LetIn(m, pos, p, maxlen))
            && (forall p | pos + i < p < pos + i + w :: Continuation(m[p]))
  {
    var w := Need(m[pos + i]) + 1;
    var c := m[pos + i..pos + i + w];
    assert m[pos + i] in m;
    forall p | pos + i < p < pos + i + w
      ensures Continuation(m[p]) && LetIn(m, pos, p, maxlen)
    {
      assert Continuation(c[p - pos - i]);
      assert m[p] in m;
    }
  }

  /** A character that is let in is let in as a whole. */
  lemma CharIsWhole(m: seq<Byte>, pos: nat, i: nat, maxlen: nat, dividers: seq<Byte>)
    requires i <= maxlen < SIZE_T && pos + i < |m| && 0 !in m && Fits(m, maxlen)
    requires var w := Need(m[pos + i]) + 1; pos + i + w <= |m| && IsChar(m[pos + i..pos + i + w])
    ensures var w, e := Need(m[pos + i]) + 1, PartEnd(m, pos, i, maxlen, dividers);
            e == i || (i + w <= maxlen && (e == i + w || e == PartEnd(m, pos, i + w, maxlen, dividers)))
  {
    hide PartEnd, IsChar, Breaks;
    PartEndStep(m, pos, i, maxlen, dividers);
    if i < maxlen && LetIn(m, pos, pos + i, maxlen) {
      CharIsLetIn(m, pos, i, maxlen);
      var w := Need(m[pos + i]) + 1;
      NoEndInside(m, pos, i, i + w - 1, maxlen, dividers);
      assert LetIn(m, pos, pos + i + w - 1, maxlen);
      PartEndStep(m, pos, i + w - 1, maxlen, dividers);
    }
  }

  lemma Cut(m: seq<Byte>, a: nat, b: nat, c: nat)
    requires a <= b <= c <= |m|
    ensures m[a..c] == m[a..b] + m[b..c]
  {
  }

  lemma FirstChar(m: seq<Byte>, p: nat)
    requires p < |m| && Utf8(m[p..])
    ensures var w := Need(m[p]) + 1; p + w <= |m| && IsChar(m[p..p + w]) && Utf8(m[p + w..])
  {
    var w := Need(m[p]) + 1;
    assert m[p..][..w] == m[p..p + w] && m[p..][w..] == m[p + w..];
  }

  /** A part of whole characters leaves whole characters. */
  lemma {:induction false} PartEndsBetweenChars(m: seq<Byte>, pos: nat, i: nat, maxlen: nat, dividers: seq<Byte>)
    requires i <= maxlen < SIZE_T && pos + i <= |m| && 0 !in m && Fits(m, maxlen) && Utf8(m[pos + i..])
    ensures var e := PartEnd(m, pos, i, maxlen, dividers); Utf8(m[pos + i..pos + e]) && Utf8(m[pos + e..])
    decreases maxlen - i
  {
    hide PartEnd, Utf8, IsChar, Blocked, Breaks;
    var e := PartEnd(m, pos, i, maxlen, dividers);
    NoChars(m, pos + e);
    if pos + i == |m| {
      assert e == i;
      return;
    }
    FirstChar(m, pos + i);
    CharIsWhole(m, pos, i, maxlen, dividers);
    var w := Need(m[pos + i]) + 1;
    if e != i {
      if e != i + w {
        PartEndsBetweenChars(m, pos, i + w, maxlen, dividers);
      }
      Cut(m, pos + i, pos + i + w, pos + e);
      Utf8Step(m[pos + i..pos + i + w], m[pos + i + w..pos + e]);
    }
  }

  lemma NoChars(m: seq<Byte>, a: nat)
    requires a <= |m|
    ensures m[a..a] == [] && Utf8(m[a..a])
  {
  }

  // ---------------------------------------------------------------- all parts

  /** The parts a caller gets that asks until there is no more, or an empty part. */
  function Parts(m: seq<Byte>, pos: nat, maxlen: nat, dividers: seq<Byte>): seq<seq<Byte>>
    requires pos <= |m|
    decreases |m| - pos
  {
    if pos == |m| then []
    else
      var e := PartEnd(m, pos, 0, maxlen, dividers);
      if e == 0 then [] else [m[pos..pos + e]] + Parts(m, pos + e, maxlen, dividers)
  }

  lemma PartsStep(m: seq<Byte>, pos: nat, maxlen: nat, dividers: seq<Byte>)
    requires pos <= |m|
    ensures var e := PartEnd(m, pos, 0, maxlen, dividers);
            Parts(m, pos, maxlen, dividers) ==
            if pos == |m| || e == 0 then [] else [m[pos..pos + e]] + Parts(m, pos + e, maxlen, dividers)
  {
  }

  predicate GoodPart(p: seq<Byte>, maxlen: nat) {
    0 < |p| <= maxlen && Utf8(p)
  }

  lemma {:induction false} FittingMessage(m: seq<Byte>, pos: nat, maxlen: nat, dividers: seq<Byte>)
    requires pos <= |m| && 0 !in m && 1 <= maxlen < SIZE_T && Fits(m, maxlen) && Utf8(m[pos..])
    ensures Concat(Parts(m, pos, maxlen, dividers)) == m[pos..]
    ensures forall p | p in Parts(m, pos, maxlen, dividers) :: GoodPart(p, maxlen)
    decreases |m| - pos
  {
    hide PartEnd, Concat, Utf8, Blocked, Breaks;
    if pos < |m| {
      assert m[pos] in m;
      EmptyPart(m, pos, maxlen, dividers);
      PartEndsBetweenChars(m, pos, 0, maxlen, dividers);
      var e := PartEnd(m, pos, 0, maxlen, dividers);
      FittingMessage(m, pos + e, maxlen, dividers);
      Cut(m, pos, pos + e, |m|);
      ConcatStep(m[pos..pos + e], Parts(m, pos + e, maxlen, dividers));
    } else {
      ConcatNothing<Byte>();
    }
  }

  lemma {:induction false} WholeCharsFit(p: seq<Byte>, maxlen: nat)
    requires Utf8(p) && |p| <= maxlen && maxlen > 0
    ensures Fits(p, maxlen)
  {
    if p != [] {
      var w := Need(p[0]) + 1;
      WholeCharsFit(p[w..], maxlen);
      assert p == p[..w] + p[w..];
      assert forall j | 0 < j < w :: Continuation(p[..w][j]);
    }
  }

  lemma {:induction false} GoodPartsFit(parts: seq<seq<Byte>>, maxlen: nat)
    requires maxlen > 0 && forall p | p in parts :: GoodPart(p, maxlen)
    ensures Fits(Concat(parts), maxlen)
  {
    if parts != [] {
      assert parts[0] in parts;
      WholeCharsFit(parts[0], maxlen);
      GoodPartsFit(parts[1..], maxlen);
    }
  }

  /** The parts of a message of whole characters put together are the message, and each is non-empty, of at most maxlen
      bytes and of whole characters: exactly if every character has room in a part; with maxlen 6 or more, always. */
  lemma PartsAreTheMessage(m: seq<Byte>, maxlen: nat, dividers: seq<Byte>)
    requires 0 !in m && Utf8(m) && 1 <= maxlen < SIZE_T
    ensures var ps := Parts(m, 0, maxlen, dividers);
            (Concat(ps) == m && forall p | p in ps :: GoodPart(p, maxlen)) <==> Fits(m, maxlen)
    ensures maxlen >= 6 ==> Fits(m, maxlen)
  {
    assert m[0..] == m;
    var ps := Parts(m, 0, maxlen, dividers);
    if Fits(m, maxlen) {
      FittingMessage(m, 0, maxlen, dividers);
    } else if forall p | p in ps :: GoodPart(p, maxlen) {
      GoodPartsFit(ps, maxlen);
    }
  }

  predicate AllSized(parts: seq<seq<Byte>>, maxlen: nat) {
    forall i | 0 <= i < |parts| :: 0 < |parts[i]| <= maxlen
  }

  lemma OneMorePart(p: seq<Byte>, parts: seq<seq<Byte>>, maxlen: nat)
    requires 0 < |p| <= maxlen && AllSized(parts, maxlen)
    ensures AllSized([p] + parts, maxlen)
  {
  }

  /** For any bytes the parts of at least 6 bytes put together are the message. */
  lemma {:induction false} AnyMessage(m: seq<Byte>, pos: nat, maxlen: nat, dividers: seq<Byte>)
    requires pos <= |m| && 0 !in m && 6 <= maxlen < SIZE_T
    ensures Concat(Parts(m, pos, maxlen, dividers)) == m[pos..]
    ensures AllSized(Parts(m, pos, maxlen, dividers), maxlen)
    decreases |m| - pos
  {
    hide PartEnd, Parts, Blocked, Breaks, Need, Minus;
    PartsStep(m, pos, maxlen, dividers);
    if pos < |m| {
      EmptyPart(m, pos, maxlen, dividers);
      var e := PartEnd(m, pos, 0, maxlen, dividers);
      AnyMessage(m, pos + e, maxlen, dividers);
      Cut(m, pos, pos + e, |m|);
      ConcatStep(m[pos..pos + e], Parts(m, pos + e, maxlen, dividers));
      OneMorePart(m[pos..pos + e], Parts(m, pos + e, maxlen, dividers), maxlen);
    }
  }

  /** The loop of a module that speaks a message part by part. */
  method AllParts(message: seq<Byte>, maxlen: nat, dividers: seq<Byte>) returns (parts: seq<seq<Byte>>, bytes: int)
    requires 0 !in message && 1 <= maxlen < SIZE_T - 1
    ensures parts == Parts(message, 0, maxlen, dividers)
    ensures bytes == -1 || bytes == 0
    ensures maxlen >= 6 ==> bytes == -1
  {
    hide PartEnd;
    var buf := new Byte[maxlen + 1];
    var pos := 0;
    parts := [];
    while true
      invariant pos <= |message|
      invariant Parts(message, 0, maxlen, dividers) == parts + Parts(message, pos, maxlen, dividers)
      decreases |message| - pos
    {
      ghost var from := pos;
      bytes, pos := GetMessagePart(message, buf, pos, maxlen, dividers);
      if from < |message| {
        EmptyPart(message, from, maxlen, dividers);
      }
      if bytes < 0 {
        break;
      }
      if bytes == 0 {
        break;
      }
      parts := parts + [buf[..bytes]];
    }
  }
}
