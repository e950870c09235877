/** What calls of module_readline return and leave: the next line of the stream, unless the scan meets a stale
    newline. */
module ModuleReadlineLaws {
  import opened Bytes
  import opened Collections
  import opened ModuleReadlineSpec
  import opened ModuleReadline

  /** The bytes not yet returned: pending, then on their way. */
  function Ahead(p: Pipe): seq<Byte>
    requires Good(p.buf)
  {
    Pending(p.buf) + p.incoming
  }

  /** Pending bytes without a newline behind a line already returned, and room behind them: the next read leaves that
      line's newline where a scan from 0 meets it. */
  predicate StaleRisk(b: Buf)
    requires Good(b)
  {
    LF !in Pending(b) && 0 < b.ptr && |b.seen| < b.cap
  }

  /** Whether bytes returned before become pending again. */
  predicate Repeats(got: Got) {
    got.Stale? && got.back != []
  }

  // ---------------------------------------------------------------- one scan

  lemma FoundAt(b: Buf, from: nat)
    requires Good(b) && from <= |b.seen|
    ensures var end := Memchr(b.seen, LF, from) + 1;
            && from < end
            && (end <= |b.seen| ==> b.seen[end - 1] == LF)
            && forall i | from <= i < end - 1 :: b.seen[i] != LF
  {
  }

  /** A scan from the first pending byte finds the next newline; one from 0 meets a stale newline if there is one. */
  lemma ScanMeets(b: Buf, from: nat)
    requires Good(b) && (from == b.ptr || from == 0)
    ensures from <= |b.seen|
    ensures var end := Memchr(b.seen, LF, from) + 1;
            && (end <= b.ptr <==> from < b.ptr)
            && (end <= |b.seen| ==> b.seen[end - 1] == LF)
            && (b.ptr < end <= |b.seen| ==> IsLine(b.seen[b.ptr..end]))
            && (end > |b.seen| ==> LF !in Pending(b))
  {
    FoundAt(b, from);
    hide Memchr;
    var end := Memchr(b.seen, LF, from) + 1;
    assert from < b.ptr ==> b.seen[b.ptr - 1] == LF;
    if b.ptr < end <= |b.seen| {
      FoundLine(b.seen, b.ptr, end);
    }
  }

  lemma FoundLine(seen: seq<Byte>, ptr: nat, end: nat)
    requires ptr < end <= |seen| && seen[end - 1] == LF && forall i | ptr <= i < end - 1 :: seen[i] != LF
    ensures IsLine(seen[ptr..end])
  {
    var whole := seen[ptr..end];
    assert whole[|whole| - 1] == seen[end - 1];
  }

  lemma PendingLeft(b: Buf, end: nat)
    requires Good(b) && b.ptr < end <= |b.seen| && b.seen[end - 1] == LF
    ensures Pending(Left(b, end)) == b.seen[end..] && Left(b, end).most == b.most
  {
  }

  lemma TakenLine(b: Buf, end: nat)
    requires Good(b) && b.ptr < end <= |b.seen| && b.seen[end - 1] == LF
    ensures Pending(b) == b.seen[b.ptr..end] + Pending(Left(b, end))
    ensures Left(b, end).most == b.most
  {
    var whole := b.seen[b.ptr..end];
    assert b.seen[b.ptr..] == whole + b.seen[end..];
    assert |b.seen| - b.ptr <= b.most;
    PendingLeft(b, end);
    hide Good, Left;
  }

  lemma TakenStale(b: Buf, end: nat)
    requires Good(b) && 0 < end <= b.ptr && b.seen[end - 1] == LF
    ensures Pending(Left(b, end)) == b.seen[end..b.ptr] + Pending(b) && (end == b.ptr ==> Left(b, end).most == b.most)
  {
    assert b.seen[end..] == b.seen[end..b.ptr] + b.seen[b.ptr..];
  }

  lemma TakeAt(b: Buf, from: nat, behind: seq<Byte>)
    requires Good(b) && from <= |b.seen|
    ensures var end := Memchr(b.seen, LF, from) + 1;
            if end > |b.seen| then Take(b, from, behind) == (NoLine, b)
            else
              && Take(b, from, behind).1 == Left(b, end)
              && Take(b, from, behind).0 ==
                 if end > b.ptr then Line(UntilNul(b.seen[b.ptr..end]), b.seen[b.ptr..end])
                 else Stale(if end == b.ptr then [] else UntilNul(Pending(b) + behind), b.seen[end..b.ptr])
  {
    hide Memchr, UntilNul, Left;
  }

  lemma TakeFromZero(b: Buf, behind: seq<Byte>)
    requires Good(b) && 0 < b.ptr
    ensures var (got, left) := Take(b, 0, behind);
            && got.Stale? && Pending(left) == got.back + Pending(b) && (got.back == [] ==> left.most == b.most)
            && got.line == if got.back == [] then [] else UntilNul(Pending(b) + behind)
  {
    GoodPtr(b);
    hide Take, Memchr, UntilNul, Left, IsLine, Good, Pending;
    ScanMeets(b, 0);
    TakeAt(b, 0, behind);
    var end := Memchr(b.seen, LF, 0) + 1;
    assert 0 < end <= b.ptr <= |b.seen|;
    TakenStale(b, end);
    assert |b.seen[end..b.ptr]| == b.ptr - end;
  }

  lemma TakeFromPending(b: Buf, behind: seq<Byte>)
    requires Good(b)
    ensures b.ptr <= |b.seen|
    ensures var (got, left) := Take(b, b.ptr, behind);
            && !got.Stale? && (got.NoLine? ==> left == b && LF !in Pending(b))
            && (got.Line? ==>
                  && IsLine(got.whole) && got.line == UntilNul(got.whole)
                  && Pending(b) == got.whole + Pending(left) && left.most == b.most)
  {
    GoodPtr(b);
    hide Take, Memchr, UntilNul, Left, IsLine, Good, Pending;
    ScanMeets(b, b.ptr);
    TakeAt(b, b.ptr, behind);
    var end := Memchr(b.seen, LF, b.ptr) + 1;
    assert b.ptr < end;
    if end <= |b.seen| {
      TakenLine(b, end);
    }
  }

  /** What a scan gives, from the first pending byte on or from 0 on. */
  lemma TakeIs(b: Buf, from: nat, behind: seq<Byte>)
    requires Good(b) && (from == b.ptr || from == 0)
    ensures from <= |b.seen|
    ensures var (got, left) := Take(b, from, behind);
            && (got.Stale? <==> from < b.ptr)
            && (got.NoLine? ==> left == b && LF !in Pending(b))
            && (got.Line? ==>
                  && IsLine(got.whole) && got.line == UntilNul(got.whole)
                  && Pending(b) == got.whole + Pending(left) && left.most == b.most)
            && (got.Stale? ==>
                  && Pending(left) == got.back + Pending(b) && (got.back == [] ==> left.most == b.most)
                  && got.line == if got.back == [] then [] else UntilNul(Pending(b) + behind))
  {
    hide Take, UntilNul, IsLine;
    if from < b.ptr {
      TakeFromZero(b, behind);
    } else {
      TakeFromPending(b, behind);
    }
  }

  // ---------------------------------------------------------------- rounds

  /** From one state to another: nothing returned, the next line of the stream, or a wrong line with bytes pending
      again. */
  predicate Right(p: Pipe, got: Got, q: Pipe)
    requires Good(p.buf) && Good(q.buf)
  {
    && |q.incoming| <= |p.incoming|
    && match got
       case NoLine => Ahead(q) == Ahead(p) && LF !in Pending(q.buf)
       case Line(line, whole) => IsLine(whole) && line == UntilNul(whole) && Ahead(p) == whole + Ahead(q)
       case Stale(line, back) =>
         Ahead(q) == back + Ahead(p) && |q.incoming| < |p.incoming| && (back == [] ==> line == [])
  }

  lemma WithBytesAhead(b: Buf, incoming: seq<Byte>, k: nat)
    requires Good(b) && 0 < k <= |incoming| && |b.seen| + k <= b.cap
    ensures var r := WithBytes(b, incoming[..k]);
            Pending(r) + incoming[k..] == Pending(b) + incoming && r.ptr == b.ptr && r.cap == b.cap
            && r.most + |incoming[k..]| <= b.most + |incoming|
  {
    assert incoming == incoming[..k] + incoming[k..];
  }

  lemma FilledIs(p: Pipe, n: nat, behind: seq<Byte>, repaired: bool)
    requires Good(p.buf) && LF !in Pending(p.buf) && |p.buf.seen| < p.buf.cap
    ensures var t := Filled(p, n, behind, repaired);
            && Right(p, t.got, t.pipe)
            && (t.got.Stale? <==> !repaired && p.buf.ptr > 0 && p.incoming != [])
            && (t.again <==> t.got.NoLine? && p.incoming != [])
            && (if p.incoming == [] then t.pipe.incoming == [] else |t.pipe.incoming| < |p.incoming|)
            && (t.got.NoLine? ==> t.pipe.buf.ptr == p.buf.ptr && (p.incoming == [] ==> t.pipe == p))
            && (!Repeats(t.got) ==> t.pipe.buf.most + |t.pipe.incoming| <= p.buf.most + |p.incoming|)
  {
    hide Take, WithBytes, UntilNul;
    var k := Amount(p.buf, p.incoming, n);
    if k > 0 {
      WithBytesAhead(p.buf, p.incoming, k);
      var b := WithBytes(p.buf, p.incoming[..k]);
      TakeIs(b, if repaired then b.ptr else 0, behind);
      var (got, left) := Take(b, if repaired then b.ptr else 0, behind);
      match got
      case Line(_, whole) => Reassociate(whole, Pending(left), p.incoming[k..]);
      case Stale(_, back) => Reassociate(back, Pending(b), p.incoming[k..]);
      case NoLine =>
    }
  }

  lemma MakeRoomIs(b: Buf, memory: bool)
    requires Good(b) && LF !in Pending(b)
    ensures var room := MakeRoom(b, memory);
            && (room.ok ==> (0 < room.buf.ptr <==> StaleRisk(b)) && (StaleRisk(b) ==> room.buf == b))
            && (!room.ok ==> !StaleRisk(b)) && (StaleRisk(room.buf) <==> StaleRisk(b))
            && (memory && 2 * b.most < SIZE_T ==> room.ok)
  {
  }

  lemma SameAhead(p: Pipe, r: Pipe, got: Got, q: Pipe)
    requires Good(p.buf) && Good(r.buf) && Good(q.buf) && Pending(r.buf) == Pending(p.buf) && r.incoming == p.incoming
    requires Right(r, got, q)
    ensures Right(p, got, q)
  {
    hide UntilNul, IsLine, Good;
  }

  /** What a round comes to, from p to q. */
  predicate RoundRight(p: Pipe, got: Got, q: Pipe, repaired: bool)
    requires Good(p.buf) && Good(q.buf)
  {
    && Right(p, got, q)
    && (got.Stale? <==> !repaired && StaleRisk(p.buf) && |q.incoming| < |p.incoming|)
    && (got.NoLine? && |q.incoming| == |p.incoming| ==> (StaleRisk(q.buf) <==> StaleRisk(p.buf)))
    && (got.NoLine? && StaleRisk(q.buf) ==> StaleRisk(p.buf))
    && (!Repeats(got) ==> q.buf.most + |q.incoming| <= p.buf.most + |p.incoming|)
  }

  lemma ReadIs(p: Pipe, memory: bool, n: nat, behind: seq<Byte>, repaired: bool)
    requires Good(p.buf) && LF !in Pending(p.buf) && MakeRoom(p.buf, memory).ok
    ensures var t := Filled(p.(buf := MakeRoom(p.buf, memory).buf), n, behind, repaired);
            RoundRight(p, t.got, t.pipe, repaired)
  {
    hide Filled, MakeRoom, Right;
    var r := p.(buf := MakeRoom(p.buf, memory).buf);
    MakeRoomIs(p.buf, memory);
    FilledIs(r, n, behind, repaired);
    var t := Filled(r, n, behind, repaired);
    SameAhead(p, r, t.got, t.pipe);
    if t.got.NoLine? {
      NoLineAfter(r, t.pipe);
    }
  }

  lemma RoundIs(p: Pipe, block: bool, repaired: bool)
    requires Good(p.buf) && LF !in Pending(p.buf) && p.script != []
    ensures var t := Round(p, block, repaired); RoundRight(p, t.got, t.pipe, repaired)
  {
    hide Filled, MakeRoom, RoundRight, Good;
    match p.script[0]
    case Ready(memory, read) =>
      var room := MakeRoom(p.buf, memory);
      MakeRoomIs(p.buf, memory);
      if room.ok && read.Gives? {
        var r := p.(script := p.script[1..]);
        SameBytes(p, r, repaired);
        ReadIs(r, memory, read.n, read.behind, repaired);
        var t := Filled(r.(buf := room.buf), read.n, read.behind, repaired);
        SameRight(p, r, t.got, t.pipe, repaired);
      } else {
        SameBytes(p, Pipe(room.buf, p.incoming, p.script[1..]), repaired);
      }
    case _ => SameBytes(p, p.(script := p.script[1..]), repaired);
  }

  lemma SameBytes(p: Pipe, r: Pipe, repaired: bool)
    requires Good(p.buf) && Good(r.buf) && Pending(r.buf) == Pending(p.buf) && r.incoming == p.incoming
    requires LF !in Pending(p.buf) && r.buf.most == p.buf.most && (StaleRisk(r.buf) <==> StaleRisk(p.buf))
    ensures RoundRight(p, NoLine, r, repaired)
  {
    Unchanged(p, r);
    hide Good;
  }

  lemma SameRight(p: Pipe, r: Pipe, got: Got, q: Pipe, repaired: bool)
    requires Good(p.buf) && Good(q.buf) && r.buf == p.buf && r.incoming == p.incoming
    requires RoundRight(r, got, q, repaired)
    ensures RoundRight(p, got, q, repaired)
  {
    SameAhead(p, r, got, q);
    hide Right;
  }

  lemma Unchanged(p: Pipe, r: Pipe)
    requires Good(p.buf) && Good(r.buf) && Pending(r.buf) == Pending(p.buf) && r.incoming == p.incoming
    requires LF !in Pending(p.buf)
    ensures Right(p, NoLine, r)
  {
  }

  lemma NoLineAfter(r: Pipe, q: Pipe)
    requires Good(r.buf) && Good(q.buf) && Right(r, NoLine, q)
    ensures LF !in Pending(q.buf)
  {
  }

  // ---------------------------------------------------------------- calls

  /** What a call comes to: it is wrong exactly if the scan index set to 0 is the one in force, the call begins with a
      stale newline in reach, and bytes arrive. */
  predicate CallRight(p: Pipe, got: Got, q: Pipe, repaired: bool)
    requires Good(p.buf) && Good(q.buf)
  {
    && Right(p, got, q)
    && (got.Stale? <==> !repaired && StaleRisk(p.buf) && |q.incoming| < |p.incoming|)
    && (!Repeats(got) ==> q.buf.most + |q.incoming| <= p.buf.most + |p.incoming|)
  }

  lemma RightTwice(p: Pipe, r: Pipe, got: Got, q: Pipe)
    requires Good(p.buf) && Good(r.buf) && Good(q.buf) && Right(p, NoLine, r) && Right(r, got, q)
    ensures Right(p, got, q)
  {
    hide UntilNul, IsLine, Good, Pending;
  }

  lemma {:induction false} RoundsAre(p: Pipe, block: bool, repaired: bool)
    requires Good(p.buf) && LF !in Pending(p.buf)
    ensures var c := Rounds(p, block, repaired);
            CallRight(p, c.got, c.after, repaired) && (c.got.NoLine? && StaleRisk(c.after.buf) ==> StaleRisk(p.buf))
    decreases |p.script|
  {
    if p.script == [] {
      RoundsEnd(p, block, repaired);
      Unchanged(p, p);
    } else {
      RoundsStep(p, block, repaired);
      RoundIs(p, block, repaired);
      hide Rounds, Round, Right;
      var t := Round(p, block, repaired);
      if t.again {
        NoLineAfter(p, t.pipe);
        RoundsAre(t.pipe, block, repaired);
        var c := Rounds(t.pipe, block, repaired);
        RightTwice(p, t.pipe, c.got, c.after);
        RightSizes(p, t.got, t.pipe);
        RightSizes(t.pipe, c.got, c.after);
      }
    }
  }

  lemma RightSizes(p: Pipe, got: Got, q: Pipe)
    requires Good(p.buf) && Good(q.buf) && Right(p, got, q)
    ensures |q.incoming| <= |p.incoming| && (got.Stale? ==> |q.incoming| < |p.incoming|)
    ensures got.NoLine? ==> LF !in Pending(q.buf)
  {
  }

  lemma LineEnd(l: seq<Byte>, x: seq<Byte>)
    requires IsLine(l)
    ensures (l + x)[|l| - 1] == LF && LF in l + x
    ensures forall i | 0 <= i < |l| - 1 :: (l + x)[i] != LF
  {
    assert (l + x)[|l| - 1] == LF;
    forall i | 0 <= i < |l| - 1
      ensures (l + x)[i] != LF
    {
      assert l[i] in l[..|l| - 1];
    }
  }

  lemma NextIs(p: Pipe, block: bool, repaired: bool)
    requires Good(p.buf)
    ensures var c := Next(p, block, repaired); CallRight(p, c.got, c.after, repaired)
  {
    TakeIs(p.buf, p.buf.ptr, []);
    hide Take, Rounds;
    var (got, left) := Take(p.buf, p.buf.ptr, []);
    if got.NoLine? {
      RoundsAre(p, block, repaired);
      hide Right;
    } else {
      Reassociate(got.whole, Pending(left), p.incoming);
      LineEnd(got.whole, Pending(left));
      hide Good;
    }
  }

  // ---------------------------------------------------------------- a steady descriptor

  predicate Delivers(o: Outcome) {
    o.Ready? && o.memory && o.read.Gives?
  }

  /** Every call on the descriptor goes well and there are calls enough. */
  predicate Steady(p: Pipe) {
    && (forall i | 0 <= i < |p.script| :: Delivers(p.script[i]))
    && |p.incoming| <= |p.script|
    && p.buf.most + |p.incoming| < SIZE_T / 2
  }

  lemma SteadyRound(p: Pipe, block: bool, repaired: bool)
    requires Good(p.buf) && LF !in Pending(p.buf) && Steady(p) && p.incoming != []
    ensures var t := Round(p, block, repaired);
            |t.pipe.incoming| < |p.incoming| && (t.got.NoLine? ==> t.again) && (!Repeats(t.got) ==> Steady(t.pipe))
  {
    hide Filled, MakeRoom, Right, Good;
    MakeRoomIs(p.buf, p.script[0].memory);
    var room := MakeRoom(p.buf, p.script[0].memory);
    FilledIs(Pipe(room.buf, p.incoming, p.script[1..]), p.script[0].read.n, p.script[0].read.behind, repaired);
    RoundIs(p, block, repaired);
  }

  lemma {:induction false} SteadyRounds(p: Pipe, block: bool, repaired: bool)
    requires Good(p.buf) && LF !in Pending(p.buf) && Steady(p) && LF in p.incoming
    ensures var c := Rounds(p, block, repaired); !c.got.NoLine? && (!Repeats(c.got) ==> Steady(c.after))
    decreases |p.script|
  {
    RoundsStep(p, block, repaired);
    SteadyRound(p, block, repaired);
    RoundIs(p, block, repaired);
    hide Rounds, Round, Steady;
    var t := Round(p, block, repaired);
    if t.again {
      NoLineAfter(p, t.pipe);
      assert Ahead(p) == Ahead(t.pipe) && LF in Ahead(p);
      SteadyRounds(t.pipe, block, repaired);
    }
  }

  /** On a steady descriptor a line that is coming is returned. */
  lemma SteadyNext(p: Pipe, block: bool, repaired: bool)
    requires Good(p.buf) && Steady(p) && LF in Ahead(p)
    ensures var c := Next(p, block, repaired); !c.got.NoLine? && (!Repeats(c.got) ==> Steady(c.after))
  {
    TakeIs(p.buf, p.buf.ptr, []);
    hide Take, Rounds;
    if Take(p.buf, p.buf.ptr, []).0.NoLine? {
      SteadyRounds(p, block, repaired);
    }
  }

  // ---------------------------------------------------------------- reads that never end inside a line

  /** A read that brings the end of a line ends there. */
  predicate Aligned(chunk: seq<Byte>) {
    LF in chunk ==> chunk[|chunk| - 1] == LF
  }

  /** Behind a returned line there is another one, or nothing. */
  predicate AtLineStart(b: Buf)
    requires Good(b)
  {
    b.ptr > 0 || LF in b.seen ==> b.seen[|b.seen| - 1] == LF
  }

  predicate AllAligned(chunks: seq<seq<Byte>>) {
    forall i | 0 <= i < |chunks| :: Aligned(chunks[i])
  }

  lemma LastIsPending(b: Buf)
    requires Good(b) && AtLineStart(b) && b.ptr > 0
    ensures LF in Pending(b)
  {
    assert Pending(b)[|Pending(b)| - 1] == LF;
  }

  lemma AlignedTake(b: Buf, from: nat, behind: seq<Byte>)
    requires Good(b) && from <= b.ptr && AtLineStart(b)
    ensures AtLineStart(Take(b, from, behind).1)
  {
    FoundAt(b, from);
    hide Memchr, UntilNul;
  }

  lemma AlignedRead(b: Buf, chunk: seq<Byte>, repaired: bool, behind: seq<Byte>)
    requires Good(b) && b.ptr == 0 && LF !in b.seen && chunk != [] && Aligned(chunk) && |b.seen| + |chunk| <= b.cap
    ensures var r := WithBytes(b, chunk); AtLineStart(Take(r, if repaired then r.ptr else 0, behind).1)
  {
    var r := WithBytes(b, chunk);
    assert LF in r.seen ==> LF in chunk;
    AlignedTake(r, 0, behind);
  }

  lemma AlignedFill(p: Pipe, n: nat, behind: seq<Byte>, repaired: bool)
    requires Good(p.buf) && p.buf.ptr == 0 && LF !in p.buf.seen && AllAligned(Filled(p, n, behind, repaired).chunks)
    ensures AtLineStart(Filled(p, n, behind, repaired).pipe.buf)
  {
    hide Take, WithBytes, Good, Amount;
    var k := Amount(p.buf, p.incoming, n);
    if k > 0 {
      assert Filled(p, n, behind, repaired).chunks[0] == p.incoming[..k];
      AlignedRead(p.buf, p.incoming[..k], repaired, behind);
    }
  }

  lemma AlignedRound(p: Pipe, block: bool, repaired: bool)
    requires Good(p.buf) && LF !in Pending(p.buf) && p.script != [] && AtLineStart(p.buf)
    requires AllAligned(Round(p, block, repaired).chunks)
    ensures AtLineStart(Round(p, block, repaired).pipe.buf) && !Round(p, block, repaired).got.Stale?
  {
    if p.buf.ptr > 0 {
      LastIsPending(p.buf);
    }
    RoundIs(p, block, repaired);
    hide Right, Filled, MakeRoom;
    if p.script[0].Ready? {
      var room := MakeRoom(p.buf, p.script[0].memory);
      MakeRoomIs(p.buf, p.script[0].memory);
      if room.ok && p.script[0].read.Gives? {
        assert room.buf.ptr == 0 && room.buf.seen == Pending(room.buf);
        AlignedFill(Pipe(room.buf, p.incoming, p.script[1..]), p.script[0].read.n, p.script[0].read.behind, repaired);
      }
    }
  }

  lemma {:induction false} AlignedRounds(p: Pipe, block: bool, repaired: bool)
    requires Good(p.buf) && LF !in Pending(p.buf) && AtLineStart(p.buf)
    requires AllAligned(Rounds(p, block, repaired).chunks)
    ensures var c := Rounds(p, block, repaired); AtLineStart(c.after.buf) && !c.got.Stale?
    decreases |p.script|
  {
    if p.script == [] {
      RoundsEnd(p, block, repaired);
    } else {
      RoundsStep(p, block, repaired);
      hide Rounds, Round, Aligned, AtLineStart;
      var t := Round(p, block, repaired);
      if t.again {
        var c := Rounds(t.pipe, block, repaired);
        AlignedParts(t.chunks, c.chunks);
        AlignedRound(p, block, repaired);
        RoundIs(p, block, repaired);
        NoLineAfter(p, t.pipe);
        AlignedRounds(t.pipe, block, repaired);
      } else {
        AlignedRound(p, block, repaired);
      }
    }
  }

  lemma AlignedParts(a: seq<seq<Byte>>, b: seq<seq<Byte>>)
    requires AllAligned(a + b)
    ensures AllAligned(a) && AllAligned(b)
  {
    assert forall i | 0 <= i < |a| :: a[i] == (a + b)[i];
    assert forall i | 0 <= i < |b| :: b[i] == (a + b)[|a| + i];
  }

  /** With no read ending inside a line behind a returned one no call goes wrong, and the next one cannot either. */
  lemma AlignedNext(p: Pipe, block: bool, repaired: bool)
    requires Good(p.buf) && AtLineStart(p.buf) && AllAligned(Next(p, block, repaired).chunks)
    ensures var c := Next(p, block, repaired); AtLineStart(c.after.buf) && !c.got.Stale?
  {
    TakeIs(p.buf, p.buf.ptr, []);
    if Take(p.buf, p.buf.ptr, []).0.NoLine? {
      hide Take, Rounds;
      AlignedRounds(p, block, repaired);
    } else {
      AlignedTake(p.buf, p.buf.ptr, []);
      hide Take, AtLineStart, Rounds;
    }
  }

  /** Every read brings one byte at most. */
  predicate OneAtATime(script: seq<Outcome>) {
    forall i | 0 <= i < |script| :: script[i].Ready? && script[i].read.Gives? ==> script[i].read.n == 0
  }

  lemma OneByteIsAligned(p: Pipe, block: bool, repaired: bool)
    requires Good(p.buf) && p.script != [] && OneAtATime(p.script)
    ensures AllAligned(Round(p, block, repaired).chunks) && OneAtATime(Round(p, block, repaired).pipe.script)
  {
    hide Take, WithBytes, MakeRoom, Good;
  }

  lemma {:induction false} OneAtATimeRounds(p: Pipe, block: bool, repaired: bool)
    requires Good(p.buf) && OneAtATime(p.script)
    ensures AllAligned(Rounds(p, block, repaired).chunks) && OneAtATime(Rounds(p, block, repaired).after.script)
    decreases |p.script|
  {
    if p.script == [] {
      RoundsEnd(p, block, repaired);
    } else {
      RoundsStep(p, block, repaired);
      OneByteIsAligned(p, block, repaired);
      hide Rounds, Round;
      var t := Round(p, block, repaired);
      if t.again {
        OneAtATimeRounds(t.pipe, block, repaired);
      }
    }
  }

  lemma OneAtATimeNext(p: Pipe, block: bool, repaired: bool)
    requires Good(p.buf) && OneAtATime(p.script)
    ensures AllAligned(Next(p, block, repaired).chunks) && OneAtATime(Next(p, block, repaired).after.script)
  {
    OneAtATimeRounds(p, block, repaired);
    hide Rounds, Take;
  }

  // ---------------------------------------------------------------- all lines

  /** The calls until one returns nothing. */
  function Calls(p: Pipe, block: bool, repaired: bool): (calls: seq<Call>)
    requires Good(p.buf)
    ensures calls != [] && forall i | 0 <= i < |calls| :: Good(calls[i].before.buf) && Good(calls[i].after.buf)
    decreases |p.incoming|, |Ahead(p)|
  {
    var c := Next(p, block, repaired);
    NextIs(p, block, repaired);
    if c.got.NoLine? then [c] else [c] + Calls(c.after, block, repaired)
  }

  lemma CallsStep(p: Pipe, block: bool, repaired: bool)
    requires Good(p.buf)
    ensures var c := Next(p, block, repaired);
            Calls(p, block, repaired) == if c.got.NoLine? then [c] else [c] + Calls(c.after, block, repaired)
  {
  }

  lemma NextDecreases(p: Pipe, block: bool, repaired: bool)
    requires Good(p.buf)
    ensures var c := Next(p, block, repaired);
            !c.got.NoLine? ==>
              |c.after.incoming| < |p.incoming|
              || (|c.after.incoming| == |p.incoming| && |Ahead(c.after)| < |Ahead(p)|)
  {
    NextIs(p, block, repaired);
    hide Next, StaleRisk, Good, Pending, UntilNul;
  }

  function LinesOf(calls: seq<Call>): seq<seq<Byte>> {
    if calls == [] then []
    else (if calls[0].got.NoLine? then [] else [calls[0].got.line]) + LinesOf(calls[1..])
  }

  function EndOf(calls: seq<Call>): Pipe
    requires calls != []
  {
    calls[|calls| - 1].after
  }

  predicate AnyStale(calls: seq<Call>) {
    exists i :: 0 <= i < |calls| && calls[i].got.Stale?
  }

  /** A call is wrong exactly if it begins with a stale newline in reach and bytes arrive. */
  predicate StaleRight(c: Call, repaired: bool)
    requires Good(c.before.buf)
  {
    c.got.Stale? <==> !repaired && StaleRisk(c.before.buf) && |c.after.incoming| < |c.before.incoming|
  }

  lemma StaleNext(p: Pipe, block: bool, repaired: bool)
    requires Good(p.buf)
    ensures StaleRight(Next(p, block, repaired), repaired)
  {
    NextIs(p, block, repaired);
    hide Next, Right, StaleRisk, Good;
  }

  /** So is every one of a sequence of calls. */
  lemma {:induction false} StaleCalls(p: Pipe, block: bool, repaired: bool, i: nat)
    requires Good(p.buf) && i < |Calls(p, block, repaired)|
    ensures StaleRight(Calls(p, block, repaired)[i], repaired)
    decreases |p.incoming|, |Ahead(p)|
  {
    hide *;
    StaleNext(p, block, repaired);
    NextDecreases(p, block, repaired);
    CallsStep(p, block, repaired);
    if i > 0 {
      StaleCalls(Next(p, block, repaired).after, block, repaired, i - 1);
    }
  }

  predicate AllLines(lines: seq<seq<Byte>>) {
    forall i | 0 <= i < |lines| :: IsLine(lines[i])
  }

  predicate NulFree(p: Pipe) {
    0 !in p.buf.seen && 0 !in p.incoming
  }

  lemma NulFreeTake(b: Buf, from: nat, behind: seq<Byte>)
    requires Good(b) && from <= |b.seen| && 0 !in b.seen
    ensures var (got, left) := Take(b, from, behind); 0 !in left.seen && (got.Line? ==> got.line == got.whole)
  {
    hide Memchr;
    FoundAt(b, from);
    var end := Memchr(b.seen, LF, from) + 1;
    assert b.ptr < end <= |b.seen| ==> forall x | x in b.seen[b.ptr..end] :: x in b.seen;
  }

  lemma NulFreeRoom(b: Buf, memory: bool)
    requires Good(b) && 0 !in b.seen
    ensures 0 !in MakeRoom(b, memory).buf.seen
  {
    assert forall x | x in Pending(b) :: x in b.seen;
  }

  lemma NulFreeFill(p: Pipe, n: nat, behind: seq<Byte>, repaired: bool)
    requires Good(p.buf) && NulFree(p)
    ensures var t := Filled(p, n, behind, repaired); NulFree(t.pipe) && (t.got.Line? ==> t.got.line == t.got.whole)
  {
    hide Take, Good, Amount;
    var k := Amount(p.buf, p.incoming, n);
    if k > 0 {
      var bytes := p.incoming[..k];
      assert forall x | x in bytes || x in p.incoming[k..] :: x in p.incoming;
      var b := WithBytes(p.buf, bytes);
      assert b.seen == p.buf.seen + bytes;
      FromIsSeen(b);
      NulFreeTake(b, if repaired then b.ptr else 0, behind);
    }
  }

  lemma FromIsSeen(b: Buf)
    requires Good(b)
    ensures b.ptr <= |b.seen|
  {
  }

  lemma NulFreeRound(p: Pipe, block: bool, repaired: bool)
    requires Good(p.buf) && p.script != [] && NulFree(p)
    ensures var t := Round(p, block, repaired); NulFree(t.pipe) && (t.got.Line? ==> t.got.line == t.got.whole)
  {
    hide Filled, Good, MakeRoom;
    if p.script[0].Ready? {
      NulFreeRoom(p.buf, p.script[0].memory);
      var room := MakeRoom(p.buf, p.script[0].memory);
      if room.ok && p.script[0].read.Gives? {
        NulFreeFill(Pipe(room.buf, p.incoming, p.script[1..]), p.script[0].read.n, p.script[0].read.behind, repaired);
      }
    }
  }

  lemma {:induction false} NulFreeRounds(p: Pipe, block: bool, repaired: bool)
    requires Good(p.buf) && NulFree(p)
    ensures var c := Rounds(p, block, repaired); NulFree(c.after) && (c.got.Line? ==> c.got.line == c.got.whole)
    decreases |p.script|
  {
    if p.script == [] {
      RoundsEnd(p, block, repaired);
    } else {
      RoundsStep(p, block, repaired);
      NulFreeRound(p, block, repaired);
      hide Rounds, Round, NulFree;
      if Round(p, block, repaired).again {
        NulFreeRounds(Round(p, block, repaired).pipe, block, repaired);
      }
    }
  }

  lemma NulFreeNext(p: Pipe, block: bool, repaired: bool)
    requires Good(p.buf) && NulFree(p)
    ensures var c := Next(p, block, repaired); NulFree(c.after) && (c.got.Line? ==> c.got.line == c.got.whole)
  {
    NulFreeRounds(p, block, repaired);
    NulFreeTake(p.buf, p.buf.ptr, []);
    hide Rounds, Take;
  }

  /** With no wrong call the lines and the bytes still to come are the stream; a wrong one adds bytes to it, or an empty
      line. */
  predicate Accounted(p: Pipe, calls: seq<Call>)
    requires Good(p.buf) && calls != [] && Good(EndOf(calls).buf)
  {
    var lines, end := LinesOf(calls), EndOf(calls);
    if !AnyStale(calls) then Ahead(p) == Concat(lines) + Ahead(end) && AllLines(lines)
    else |Concat(lines)| + |Ahead(end)| > |Ahead(p)| || HasEmpty(lines)
  }

  lemma AccountedOne(p: Pipe, c: Call)
    requires Good(p.buf) && Good(c.after.buf) && c.got.NoLine? && Ahead(c.after) == Ahead(p)
    ensures Accounted(p, [c])
  {
    assert LinesOf([c]) == [];
    hide Good, Ahead;
    assert Concat<Byte>([]) + Ahead(p) == Ahead(p);
  }

  lemma AccountedMore(p: Pipe, c: Call, rest: seq<Call>, got: Got, q: Pipe)
    requires Good(p.buf) && Good(q.buf) && rest != [] && Good(EndOf(rest).buf) && Accounted(q, rest)
    requires c.got == got && !got.NoLine? && Right(p, got, q) && (got.Line? ==> got.line == got.whole)
    ensures Accounted(p, [c] + rest)
  {
    var all := [c] + rest;
    assert all[1..] == rest && EndOf(all) == EndOf(rest);
    assert LinesOf(all) == [got.line] + LinesOf(rest);
    ConcatStep(got.line, LinesOf(rest));
    assert AnyStale(all) <==> got.Stale? || AnyStale(rest) by {
      StaleFirst(c, rest);
    }
    LinesFirst(got.line, LinesOf(rest));
    Reassociate(got.line, Concat(LinesOf(rest)), Ahead(EndOf(rest)));
    hide Good, Ahead, LinesOf, AnyStale, EndOf, UntilNul, Concat;
  }

  lemma StaleFirst(c: Call, rest: seq<Call>)
    ensures AnyStale([c] + rest) <==> c.got.Stale? || AnyStale(rest)
  {
    var all := [c] + rest;
    assert all[0] == c;
    if AnyStale(rest) {
      var i :| 0 <= i < |rest| && rest[i].got.Stale?;
      assert all[i + 1].got.Stale?;
    }
  }

  /** Of the lines one is empty. */
  predicate HasEmpty(lines: seq<seq<Byte>>) {
    exists i :: 0 <= i < |lines| && lines[i] == []
  }

  lemma LinesFirst(l: seq<Byte>, lines: seq<seq<Byte>>)
    ensures AllLines([l] + lines) <==> IsLine(l) && AllLines(lines)
    ensures HasEmpty([l] + lines) <==> l == [] || HasEmpty(lines)
  {
    hide IsLine;
    var all := [l] + lines;
    assert all[0] == l && forall i | 0 <= i < |lines| :: all[i + 1] == lines[i];
    if HasEmpty(lines) {
      var i :| 0 <= i < |lines| && lines[i] == [];
      assert all[i + 1] == [];
    }
    if AllLines(all) {
      forall i | 0 <= i < |lines|
        ensures IsLine(lines[i])
      {
        assert IsLine(all[i + 1]);
      }
    }
  }

  lemma {:induction false} CallsAreAccounted(p: Pipe, block: bool, repaired: bool)
    requires Good(p.buf) && NulFree(p)
    ensures Accounted(p, Calls(p, block, repaired))
    decreases |p.incoming|, |Ahead(p)|
  {
    hide Next, Calls, NulFree, Accounted, Good, Ahead;
    var c := Next(p, block, repaired);
    NextIs(p, block, repaired);
    NextDecreases(p, block, repaired);
    CallsStep(p, block, repaired);
    NulFreeNext(p, block, repaired);
    if c.got.NoLine? {
      AccountedOne(p, c);
    } else {
      CallsAreAccounted(c.after, block, repaired);
      AccountedMore(p, c, Calls(c.after, block, repaired), c.got, c.after);
    }
  }

  lemma NoLineIsEmpty(lines: seq<seq<Byte>>)
    requires AllLines(lines)
    ensures !HasEmpty(lines)
  {
    forall i | 0 <= i < |lines|
      ensures lines[i] != []
    {
      assert IsLine(lines[i]);
    }
  }

  /** Whatever the reads hand over, of input without NUL: the lines returned, one after the other, and then the bytes
      still to come are the input, each line ending in its only newline, exactly if no call begins with a stale newline
      in reach and gets bytes. */
  lemma LinesAreInput(p: Pipe, block: bool, repaired: bool)
    requires Good(p.buf) && NulFree(p)
    ensures var calls := Calls(p, block, repaired); var lines, end := LinesOf(calls), EndOf(calls);
            (Ahead(p) == Concat(lines) + Ahead(end) && AllLines(lines)) <==>
            forall i | 0 <= i < |calls| ::
              repaired || !StaleRisk(calls[i].before.buf) || |calls[i].after.incoming| >= |calls[i].before.incoming|
  {
    var calls := Calls(p, block, repaired);
    CallsAreAccounted(p, block, repaired);
    hide Calls, Good, Ahead, StaleRisk, LinesOf, Concat;
    forall i | 0 <= i < |calls|
      ensures StaleRight(calls[i], repaired)
    {
      StaleCalls(p, block, repaired, i);
    }
    if AllLines(LinesOf(calls)) {
      NoLineIsEmpty(LinesOf(calls));
    }
    hide AllLines, HasEmpty;
  }

  // ---------------------------------------------------------------- cutting a stream into lines

  /** A stream cut into lines and a rest without a newline. */
  predicate IsSplit(s: seq<Byte>, lines: seq<seq<Byte>>, rest: seq<Byte>) {
    s == Concat(lines) + rest && LF !in rest && AllLines(lines)
  }

  lemma FirstLineIsUnique(a: seq<Byte>, x: seq<Byte>, b: seq<Byte>, y: seq<Byte>)
    requires IsLine(a) && IsLine(b) && a + x == b + y
    ensures a == b && x == y
  {
    var s := a + x;
    LineEnd(a, x);
    LineEnd(b, y);
    assert |a| == |b|;
    assert a == s[..|a|] && b == s[..|b|] && x == s[|a|..] && y == s[|b|..];
  }

  lemma FirstOfSplit(s: seq<Byte>, lines: seq<seq<Byte>>, rest: seq<Byte>)
    requires IsSplit(s, lines, rest)
    ensures lines != [] <==> LF in s
    ensures lines == [] ==> s == rest
    ensures lines != [] ==>
              && s == lines[0] + (Concat(lines[1..]) + rest) && IsLine(lines[0])
              && IsSplit(Concat(lines[1..]) + rest, lines[1..], rest)
  {
    if lines == [] {
      assert s == rest;
    } else {
      Reassociate(lines[0], Concat(lines[1..]), rest);
      LineEnd(lines[0], Concat(lines[1..]) + rest);
    }
  }

  /** There is only one way to cut a stream into lines. */
  lemma {:induction false} SplitIsUnique(s: seq<Byte>, lines: seq<seq<Byte>>, rest: seq<Byte>,
                                         lines': seq<seq<Byte>>, rest': seq<Byte>)
    requires IsSplit(s, lines, rest) && IsSplit(s, lines', rest')
    ensures lines == lines' && rest == rest'
    decreases |lines|
  {
    FirstOfSplit(s, lines, rest);
    FirstOfSplit(s, lines', rest');
    hide IsSplit;
    if lines != [] {
      FirstLineIsUnique(lines[0], Concat(lines[1..]) + rest, lines'[0], Concat(lines'[1..]) + rest');
      SplitIsUnique(Concat(lines[1..]) + rest, lines[1..], rest, lines'[1..], rest');
      assert lines == [lines[0]] + lines[1..] && lines' == [lines'[0]] + lines'[1..];
    }
  }

  /** On a steady descriptor calls without a wrong one cut the stream: nothing but an unfinished line is left. */
  lemma {:induction false} SteadyCalls(p: Pipe, block: bool, repaired: bool)
    requires Good(p.buf) && Steady(p) && !AnyStale(Calls(p, block, repaired))
    ensures LF !in Ahead(EndOf(Calls(p, block, repaired)))
    decreases |p.incoming|, |Ahead(p)|
  {
    hide Next, Calls, Steady, Good, Ahead, AnyStale, Right;
    var c := Next(p, block, repaired);
    NextIs(p, block, repaired);
    NextDecreases(p, block, repaired);
    CallsStep(p, block, repaired);
    if c.got.NoLine? {
      if LF in Ahead(p) {
        SteadyNext(p, block, repaired);
      }
      SameAheadAfter(p, c.after);
    } else {
      StaleFirst(c, Calls(c.after, block, repaired));
      LineAhead(p, c.got, c.after);
      SteadyNext(p, block, repaired);
      SteadyCalls(c.after, block, repaired);
    }
  }

  lemma SameAheadAfter(p: Pipe, q: Pipe)
    requires Good(p.buf) && Good(q.buf) && Right(p, NoLine, q)
    ensures Ahead(p) == Ahead(q)
  {
  }

  lemma LineAhead(p: Pipe, got: Got, q: Pipe)
    requires Good(p.buf) && Good(q.buf) && Right(p, got, q) && got.Line?
    ensures LF in Ahead(p)
  {
    LineEnd(got.whole, Ahead(q));
  }

  /** Call module_readline until it has no line. */
  method ReadLines(reader: Reader, input: Input, block: bool) returns (lines: seq<seq<Byte>>)
    requires reader.Valid()
    modifies reader, reader.data, input
    ensures reader.Valid()
    ensures var calls := Calls(old(reader.PipeOf(input)), block, reader.repaired);
            lines == LinesOf(calls) && reader.PipeOf(input) == EndOf(calls)
  {
    hide Calls, LinesOf, Next, Good, Ahead;
    ghost var all := Calls(reader.PipeOf(input), block, reader.repaired);
    lines := [];
    while true
      invariant reader.Valid() && (reader.data == old(reader.data) || fresh(reader.data))
      invariant var calls := Calls(reader.PipeOf(input), block, reader.repaired);
                LinesOf(all) == lines + LinesOf(calls) && EndOf(all) == EndOf(calls)
      decreases |input.incoming|, |Ahead(reader.PipeOf(input))|
    {
      ghost var p := reader.PipeOf(input);
      var line := reader.ReadLine(input, block);
      CallsStep(p, block, reader.repaired);
      NextDecreases(p, block, reader.repaired);
      LinesStep(p, block, reader.repaired);
      if line == None {
        return;
      }
      lines := lines + [line.value];
    }
  }

  lemma LinesStep(p: Pipe, block: bool, repaired: bool)
    requires Good(p.buf)
    ensures var c := Next(p, block, repaired); var calls := Calls(p, block, repaired);
            if c.got.NoLine? then LinesOf(calls) == [] && EndOf(calls) == c.after
            else
              var rest := Calls(c.after, block, repaired);
              LinesOf(calls) == [LineOf(c.got).value] + LinesOf(rest) && EndOf(calls) == EndOf(rest)
  {
    CallsStep(p, block, repaired);
    hide Calls, Next;
    var c := Next(p, block, repaired);
    if !c.got.NoLine? {
      assert ([c] + Calls(c.after, block, repaired))[1..] == Calls(c.after, block, repaired);
    }
  }
}
