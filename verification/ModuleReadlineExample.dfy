/** A run of module_readline that goes wrong. */
module ModuleReadlineExample {
  import opened Bytes
  import opened Collections
  import opened ModuleReadlineSpec
  import opened ModuleReadline
  import opened ModuleReadlineLaws

  /** A round that reads `chunk` of the bytes on their way into the buffer `room`. */
  predicate Brings(p: Pipe, room: Buf, chunk: seq<Byte>, rest: seq<Byte>) {
    && Good(p.buf) && Good(room) && p.script != [] && Delivers(p.script[0])
    && MakeRoom(p.buf, true) == Room(true, false, room)
    && p.incoming == chunk + rest && chunk != []
    && |chunk| == Amount(room, p.incoming, p.script[0].read.n)
  }

  lemma TakeMisses(b: Buf, from: nat, behind: seq<Byte>)
    requires Good(b) && from <= |b.seen| && forall i | from <= i < |b.seen| :: b.seen[i] != LF
    ensures Take(b, from, behind) == (NoLine, b)
  {
    FoundAt(b, from);
    hide Memchr, Cut, Left;
  }

  lemma TakeFinds(b: Buf, from: nat, behind: seq<Byte>, end: nat)
    requires Good(b) && from < end <= |b.seen| && b.seen[end - 1] == LF
    requires forall i | from <= i < end - 1 :: b.seen[i] != LF
    ensures Take(b, from, behind) == (Cut(b, end, behind), Left(b, end))
  {
    MemchrIs(b.seen, LF, from, end - 1);
    hide Memchr, Cut, Left;
  }

  lemma RoundBrings(p: Pipe, room: Buf, chunk: seq<Byte>, rest: seq<Byte>, repaired: bool)
    requires Brings(p, room, chunk, rest)
    ensures |room.seen| + |chunk| <= room.cap
    ensures var b := WithBytes(room, chunk);
            && b.seen == room.seen + chunk && b.ptr == room.ptr && b.ptr <= |b.seen|
            && var (got, left) := Take(b, if repaired then b.ptr else 0, p.script[0].read.behind);
               Round(p, true, repaired) == Turn(got.NoLine?, got, Pipe(left, rest, p.script[1..]), [chunk])
  {
    hide Take, MakeRoom;
    assert p.incoming[..|chunk|] == chunk && p.incoming[|chunk|..] == rest;
  }

  lemma BringsNothing(p: Pipe, room: Buf, chunk: seq<Byte>, rest: seq<Byte>, repaired: bool)
    requires Brings(p, room, chunk, rest)
    requires forall i | 0 <= i < |room.seen + chunk| :: (room.seen + chunk)[i] != LF
    ensures |room.seen| + |chunk| <= room.cap
    ensures var q := Pipe(WithBytes(room, chunk), rest, p.script[1..]);
            && Rounds(p, true, repaired).got == Rounds(q, true, repaired).got
            && Rounds(p, true, repaired).after == Rounds(q, true, repaired).after
  {
    RoundBrings(p, room, chunk, rest, repaired);
    var b := WithBytes(room, chunk);
    TakeMisses(b, if repaired then b.ptr else 0, p.script[0].read.behind);
    RoundsStep(p, true, repaired);
    hide Rounds, Round, Take, Good, MakeRoom, WithBytes;
  }

  lemma BringsLine(p: Pipe, room: Buf, chunk: seq<Byte>, rest: seq<Byte>, repaired: bool, end: nat)
    requires Brings(p, room, chunk, rest)
    requires var seen, from := room.seen + chunk, if repaired then room.ptr else 0;
             from < end <= |seen| && seen[end - 1] == LF && forall i | from <= i < end - 1 :: seen[i] != LF
    ensures |room.seen| + |chunk| <= room.cap
    ensures var b := WithBytes(room, chunk); var c := Rounds(p, true, repaired);
            c.got == Cut(b, end, p.script[0].read.behind) && c.after == Pipe(Left(b, end), rest, p.script[1..])
  {
    RoundBrings(p, room, chunk, rest, repaired);
    var b := WithBytes(room, chunk);
    TakeFinds(b, if repaired then b.ptr else 0, p.script[0].read.behind, end);
    RoundsStep(p, true, repaired);
    hide Rounds, Round, Take, Good, MakeRoom, WithBytes, Cut, Left;
  }

  lemma NothingPending(p: Pipe, repaired: bool)
    requires Good(p.buf) && forall i | p.buf.ptr <= i < |p.buf.seen| :: p.buf.seen[i] != LF
    ensures Next(p, true, repaired) == Rounds(p, true, repaired)
  {
    TakeMisses(p.buf, p.buf.ptr, []);
    hide Take, Rounds;
  }

  lemma LinePending(p: Pipe, repaired: bool, end: nat)
    requires Good(p.buf) && p.buf.ptr < end <= |p.buf.seen| && p.buf.seen[end - 1] == LF
    requires forall i | p.buf.ptr <= i < end - 1 :: p.buf.seen[i] != LF
    ensures var c := Next(p, true, repaired);
            c.got == Cut(p.buf, end, []) && c.after == p.(buf := Left(p.buf, end))
  {
    TakeFinds(p.buf, p.buf.ptr, [], end);
    hide Take, Rounds, Left;
  }

  /** A read of two bytes, as far as there is room. */
  function Two(behind: seq<Byte>): Outcome {
    Ready(true, Gives(1, behind))
  }

  const FOUR: seq<Byte> := [97, 97, 97, 97] // "aaaa"

  lemma TwoAreRead(rest: seq<Byte>, script: seq<Outcome>, repaired: bool)
    requires |rest| >= 2
    ensures var p := Pipe(Buf([], 0, 0, 0), FOUR + rest, [Two([])] + script);
            var q := Pipe(Buf(FOUR[..2], 0, 2, 2), FOUR[2..] + rest, script);
            && Next(p, true, repaired) == Rounds(p, true, repaired)
            && Rounds(p, true, repaired).got == Rounds(q, true, repaired).got
            && Rounds(p, true, repaired).after == Rounds(q, true, repaired).after
  {
    hide Rounds, Next;
    var chunk := FOUR[..2];
    var p := Pipe(Buf([], 0, 0, 0), FOUR + rest, [Two([])] + script);
    NothingPending(p, repaired);
    assert p.incoming == chunk + (FOUR[2..] + rest) && p.script[1..] == script;
    var room := Buf([], 0, 2, 0);
    assert MakeRoom(p.buf, true) == Room(true, false, room);
    BringsNothing(p, room, chunk, FOUR[2..] + rest, repaired);
    assert WithBytes(room, chunk) == Buf(chunk, 0, 2, 2);
  }

  lemma TwoMoreAreRead(rest: seq<Byte>, script: seq<Outcome>, repaired: bool)
    requires |rest| >= 2
    ensures var p := Pipe(Buf(FOUR[..2], 0, 2, 2), FOUR[2..] + rest, [Two([])] + script);
            var q := Pipe(Buf(FOUR, 0, 4, 4), rest, script);
            && Rounds(p, true, repaired).got == Rounds(q, true, repaired).got
            && Rounds(p, true, repaired).after == Rounds(q, true, repaired).after
  {
    var chunk := FOUR[2..];
    var p := Pipe(Buf(FOUR[..2], 0, 2, 2), chunk + rest, [Two([])] + script);
    assert p.script[1..] == script;
    var room := Buf(FOUR[..2], 0, 4, 2);
    assert MakeRoom(p.buf, true) == Room(true, false, room);
    assert room.seen + chunk == FOUR;
    BringsNothing(p, room, chunk, rest, repaired);
    hide Rounds;
    assert WithBytes(room, chunk) == Buf(FOUR, 0, 4, 4);
  }

  const FIRST: seq<Byte> := [97, 97, 97, 97, LF]

  lemma FourAreRead(rest: seq<Byte>, script: seq<Outcome>, repaired: bool)
    requires |rest| >= 2
    ensures var p := Pipe(Buf([], 0, 0, 0), FOUR + rest, [Two([])] + ([Two([])] + script));
            var q := Pipe(Buf(FOUR, 0, 4, 4), rest, script);
            Next(p, true, repaired).got == Rounds(q, true, repaired).got
            && Next(p, true, repaired).after == Rounds(q, true, repaired).after
  {
    hide Next, Rounds;
    TwoAreRead(rest, [Two([])] + script, repaired);
    TwoMoreAreRead(rest, script, repaired);
  }

  lemma CutFirst(chunk: seq<Byte>, behind: seq<Byte>)
    requires 1 < |chunk| < 4 && chunk[0] == LF
    ensures var b := Buf(FOUR + chunk, 0, 8, 4 + |chunk|);
            Cut(b, 5, behind) == Line(FIRST, FIRST) && Left(b, 5) == Buf(FOUR + chunk, 5, 8, 4 + |chunk|)
  {
    var b := Buf(FOUR + chunk, 0, 8, 4 + |chunk|);
    assert b.seen[0..5] == FIRST;
    assert UntilNul(FIRST) == FIRST;
    hide UntilNul;
  }

  lemma LineAfterFour(chunk: seq<Byte>, rest: seq<Byte>, last: Outcome, script: seq<Outcome>, repaired: bool)
    requires 1 < |chunk| < 4 && chunk[0] == LF && Delivers(last) && last.read.n + 1 == |chunk|
    ensures var c := Rounds(Pipe(Buf(FOUR, 0, 4, 4), chunk + rest, [last] + script), true, repaired);
            c.got == Line(FIRST, FIRST) && c.after == Pipe(Buf(FOUR + chunk, 5, 8, 4 + |chunk|), rest, script)
  {
    hide Rounds, Cut, Left;
    var q := Pipe(Buf(FOUR, 0, 4, 4), chunk + rest, [last] + script);
    assert q.script[1..] == script;
    var room := Buf(FOUR, 0, 8, 4);
    assert MakeRoom(q.buf, true) == Room(true, false, room);
    BringsLine(q, room, chunk, rest, repaired, 5);
    CutFirst(chunk, last.read.behind);
    assert WithBytes(room, chunk) == Buf(FOUR + chunk, 0, 8, 4 + |chunk|);
  }

  /** Three reads bring "aaaa", a newline and what follows it; the line is returned, its newline stays. */
  lemma FirstLineIsRead(chunk: seq<Byte>, rest: seq<Byte>, last: Outcome, script: seq<Outcome>, repaired: bool)
    requires 1 < |chunk| < 4 && chunk[0] == LF && Delivers(last) && last.read.n + 1 == |chunk|
    ensures var p := Pipe(Buf([], 0, 0, 0), FOUR + (chunk + rest), [Two([])] + ([Two([])] + ([last] + script)));
            var c := Next(p, true, repaired);
            c.got == Line(FIRST, FIRST) && c.after == Pipe(Buf(FOUR + chunk, 5, 8, 4 + |chunk|), rest, script)
  {
    hide Next, Rounds;
    FourAreRead(chunk + rest, [last] + script, repaired);
    LineAfterFour(chunk, rest, last, script, repaired);
  }

  const B_LINE: seq<Byte> := [98, 99, LF] // "bc"
  const AFTER_FIRST := Buf(FOUR + [LF, 98], 5, 8, 6)

  lemma StaleSecond()
    ensures Good(AFTER_FIRST)
    ensures Next(Pipe(AFTER_FIRST, [99, LF], [Two([])]), true, false).got == Stale([], [])
  {
    hide Next, Rounds;
    var p := Pipe(AFTER_FIRST, [99, LF], [Two([])]);
    assert MakeRoom(p.buf, true) == Room(true, false, p.buf);
    assert p.incoming == [99, LF] + [];
    NothingPending(p, false);
    BringsLine(p, p.buf, [99, LF], [], false, 5);
  }

  lemma RepairedSecond()
    ensures Good(AFTER_FIRST)
    ensures Next(Pipe(AFTER_FIRST, [99, LF], [Two([])]), true, true).got == Line(B_LINE, B_LINE)
  {
    hide Next, Rounds;
    var p := Pipe(AFTER_FIRST, [99, LF], [Two([])]);
    assert MakeRoom(p.buf, true) == Room(true, false, p.buf);
    assert p.incoming == [99, LF] + [];
    NothingPending(p, true);
    BringsLine(p, p.buf, [99, LF], [], true, 8);
    assert (p.buf.seen + [99, LF])[5..8] == B_LINE;
    assert UntilNul(B_LINE) == B_LINE;
    hide UntilNul;
  }

  const LETTERS: seq<Byte> := FOUR + ([LF, 98] + [99, LF])
  const READS: seq<Outcome> := [Two([])] + ([Two([])] + ([Two([])] + [Two([])]))

  /** The stream "aaaa\nbc\n" in reads of two bytes: the second call meets the newline of the first line and returns
      an empty one; with the scan index repaired it returns the second line. */
  lemma SecondLineIsEmpty(repaired: bool)
    ensures var c := Next(Pipe(Buf([], 0, 0, 0), LETTERS, READS), true, repaired);
            && LineOf(c.got) == Some(FIRST)
            && LineOf(Next(c.after, true, repaired).got) == Some(if repaired then B_LINE else [])
  {
    hide Next, Rounds;
    FirstLineIsRead([LF, 98], [99, LF], Two([]), [Two([])], repaired);
    if repaired {
      RepairedSecond();
    } else {
      StaleSecond();
    }
  }

  /** module_readline, called twice on that stream. */
  method StaleNewline() returns (first: Option<seq<Byte>>, second: Option<seq<Byte>>)
    ensures first == Some(FIRST) && second == Some([])
  {
    hide Next, LETTERS, READS, FIRST, FOUR;
    SecondLineIsEmpty(false);
    var reader := new Reader(false);
    var input := new Input(LETTERS, READS);
    first := reader.ReadLine(input, true);
    second := reader.ReadLine(input, true);
  }
}
