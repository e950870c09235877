/** What stands in front of the pending bytes of the line buffer: lines already returned. A stale newline makes some of
    them pending again. */
module ModuleReadlineBehind {
  import opened Bytes
  import opened ModuleReadlineSpec
  import opened ModuleReadlineLaws

  /** The bytes in front of the pending ones. */
  function Behind(b: Buf): seq<Byte>
    requires Good(b)
  {
    b.seen[..b.ptr]
  }

  /** A call that begins so and gets bytes makes returned ones pending again: a newline stands in front of the last
      returned line. */
  predicate RepeatRisk(b: Buf)
    requires Good(b)
  {
    StaleRisk(b) && LF in b.seen[..b.ptr - 1]
  }

  /** From one buffer to another: what was in front is still there or gone, with the line just returned behind it; a
      stale newline leaves the first line in front and makes the others pending. */
  predicate BehindRight(b: Buf, got: Got, r: Buf)
    requires Good(b) && Good(r)
  {
    match got
    case NoLine => Behind(r) == Behind(b) || Behind(r) == []
    case Line(_, whole) => Behind(r) == [] || Behind(r) == whole || Behind(r) == Behind(b) + whole
    case Stale(_, back) => IsLine(Behind(r)) && Behind(b) == Behind(r) + back
  }

  lemma LineBehind(b: Buf, end: nat)
    requires Good(b) && b.ptr < end <= |b.seen| && b.seen[end - 1] == LF
    ensures Behind(Left(b, end)) == [] || Behind(Left(b, end)) == Behind(b) + b.seen[b.ptr..end]
  {
    assert b.seen[..end] == b.seen[..b.ptr] + b.seen[b.ptr..end];
  }

  lemma StaleBehind(b: Buf, end: nat)
    requires Good(b) && 0 < end <= b.ptr && b.seen[end - 1] == LF && forall i | 0 <= i < end - 1 :: b.seen[i] != LF
    ensures IsLine(Behind(Left(b, end))) && Behind(b) == Behind(Left(b, end)) + b.seen[end..b.ptr]
  {
    FoundLine(b.seen, 0, end);
    assert b.seen[..b.ptr] == b.seen[..end] + b.seen[end..b.ptr];
    assert b.seen[0..end] == b.seen[..end];
  }

  lemma TakeBehind(b: Buf, from: nat, behind: seq<Byte>)
    requires Good(b) && (from == b.ptr || from == 0)
    ensures from <= |b.seen| && BehindRight(b, Take(b, from, behind).0, Take(b, from, behind).1)
  {
    GoodPtr(b);
    FoundAt(b, from);
    ScanMeets(b, from);
    TakeAt(b, from, behind);
    var end := Memchr(b.seen, LF, from) + 1;
    if b.ptr < end <= |b.seen| {
      LineBehind(b, end);
    } else if end <= b.ptr {
      StaleBehind(b, end);
    }
    hide Take, Memchr, UntilNul, Left, IsLine, Good, Behind, Pending;
  }

  lemma BehindTwice(b: Buf, m: Buf, got: Got, r: Buf)
    requires Good(b) && Good(m) && Good(r) && BehindRight(b, NoLine, m) && BehindRight(m, got, r)
    ensures BehindRight(b, got, r)
  {
    hide Behind, Good;
    if got.Line? {
      assert [] + got.whole == got.whole;
    }
  }

  lemma FilledBehind(p: Pipe, n: nat, behind: seq<Byte>, repaired: bool)
    requires Good(p.buf)
    ensures var t := Filled(p, n, behind, repaired); BehindRight(p.buf, t.got, t.pipe.buf)
  {
    hide Take, Amount, BehindRight, Good;
    var k := Amount(p.buf, p.incoming, n);
    if k == 0 {
      BehindStays(p.buf, p.buf);
    } else {
      GoodPtr(p.buf);
      var b := WithBytes(p.buf, p.incoming[..k]);
      BehindStays(p.buf, b);
      TakeBehind(b, if repaired then b.ptr else 0, behind);
      BehindTwice(p.buf, b, Take(b, if repaired then b.ptr else 0, behind).0,
                  Take(b, if repaired then b.ptr else 0, behind).1);
    }
  }

  lemma BehindStays(b: Buf, r: Buf)
    requires Good(b) && Good(r) && b.ptr == r.ptr && b.seen <= r.seen
    ensures BehindRight(b, NoLine, r)
  {
  }

  lemma RoomBehind(b: Buf, memory: bool)
    requires Good(b)
    ensures BehindRight(b, NoLine, MakeRoom(b, memory).buf)
  {
  }

  lemma RoundBehind(p: Pipe, block: bool, repaired: bool)
    requires Good(p.buf) && p.script != []
    ensures var t := Round(p, block, repaired); BehindRight(p.buf, t.got, t.pipe.buf)
  {
    hide Filled, MakeRoom, Good, BehindRight;
    BehindStays(p.buf, p.buf);
    if p.script[0].Ready? {
      RoomBehind(p.buf, p.script[0].memory);
      var room := MakeRoom(p.buf, p.script[0].memory);
      if room.ok && p.script[0].read.Gives? {
        var r := Pipe(room.buf, p.incoming, p.script[1..]);
        FilledBehind(r, p.script[0].read.n, p.script[0].read.behind, repaired);
        var t := Filled(r, p.script[0].read.n, p.script[0].read.behind, repaired);
        BehindTwice(p.buf, room.buf, t.got, t.pipe.buf);
      }
    }
  }

  lemma {:induction false} RoundsBehind(p: Pipe, block: bool, repaired: bool)
    requires Good(p.buf)
    ensures var c := Rounds(p, block, repaired); BehindRight(p.buf, c.got, c.after.buf)
    decreases |p.script|
  {
    hide Rounds, Round, Good, BehindRight;
    if p.script == [] {
      RoundsEnd(p, block, repaired);
      BehindStays(p.buf, p.buf);
    } else {
      RoundsStep(p, block, repaired);
      RoundBehind(p, block, repaired);
      var t := Round(p, block, repaired);
      if t.again {
        RoundsBehind(t.pipe, block, repaired);
        var c := Rounds(t.pipe, block, repaired);
        BehindTwice(p.buf, t.pipe.buf, c.got, c.after.buf);
      }
    }
  }

  lemma NextBehind(p: Pipe, block: bool, repaired: bool)
    requires Good(p.buf)
    ensures var c := Next(p, block, repaired); BehindRight(p.buf, c.got, c.after.buf)
  {
    hide Rounds, Take, Good, BehindRight;
    TakeBehind(p.buf, p.buf.ptr, []);
    RoundsBehind(p, block, repaired);
  }

  lemma FirstOfLines(first: seq<Byte>, back: seq<Byte>)
    requires IsLine(first)
    ensures var s := first + back; |s| > 0 && (LF in s[..|s| - 1] <==> back != [])
  {
    var s := first + back;
    if back == [] {
      assert s == first;
    } else {
      assert s[..|s| - 1][|first| - 1] == LF;
    }
  }

  /** A call makes returned bytes pending again exactly if the scan index set to 0 is in force, the call begins with two
      returned lines in front of pending bytes without a newline, and with room behind them, and bytes arrive. */
  lemma RepeatsExactly(p: Pipe, block: bool, repaired: bool)
    requires Good(p.buf)
    ensures var c := Next(p, block, repaired);
            Repeats(c.got) <==> !repaired && RepeatRisk(p.buf) && |c.after.incoming| < |p.incoming|
  {
    hide Next, Right, Good, Pending, IsLine;
    var c := Next(p, block, repaired);
    NextIs(p, block, repaired);
    NextBehind(p, block, repaired);
    if c.got.Stale? {
      FirstOfLines(Behind(c.after.buf), c.got.back);
      GoodPtr(p.buf);
    }
  }
}
