/** How long a call of module_readline goes on: which outcomes of its system calls end it. */
module ModuleReadlineWaits {
  import opened Bytes
  import opened ModuleReadlineSpec
  import opened ModuleReadlineLaws

  /** An error that is not a hiccup, with memory for the read. */
  predicate Fatal(o: Outcome) {
    o.SelectError? || (o.Ready? && o.memory && o.read.ReadError?)
  }

  /** Why a blocking call gives up, with `q` left: an error, the end of the stream, or a buffer that cannot double in
      size_t. */
  predicate GivesUp(o: Outcome, q: Pipe) {
    o.SelectError?
    || (o.Ready? && (o.read.ReadError? || (o.read.Gives? && q.incoming == []) || 2 * q.buf.cap >= SIZE_T))
  }

  lemma FilledWaits(p: Pipe, n: nat, behind: seq<Byte>, repaired: bool)
    requires Good(p.buf) && |p.buf.seen| < p.buf.cap
    ensures var t := Filled(p, n, behind, repaired); !t.again && t.got.NoLine? ==> t.pipe.incoming == []
  {
    hide Take, WithBytes;
  }

  lemma NoRoomWhy(b: Buf, memory: bool)
    requires Good(b)
    ensures var room := MakeRoom(b, memory);
            !room.ok ==> room.buf == b && (room.overflow ==> 2 * b.cap >= SIZE_T) && (memory ==> room.overflow)
  {
  }

  lemma RoundWaits(p: Pipe, block: bool, repaired: bool)
    requires Good(p.buf) && p.script != []
    ensures var t, o := Round(p, block, repaired), p.script[0];
            && (t.again ==> !Fatal(o) && (block || (o.Ready? && o.read.Gives?)))
            && (!t.again && t.got.NoLine? && block ==> GivesUp(o, t.pipe))
  {
    hide Filled, MakeRoom, Good;
    if p.script[0].Ready? {
      NoRoomWhy(p.buf, p.script[0].memory);
      var room := MakeRoom(p.buf, p.script[0].memory);
      if room.ok && p.script[0].read.Gives? {
        FilledWaits(Pipe(room.buf, p.incoming, p.script[1..]), p.script[0].read.n, p.script[0].read.behind, repaired);
      }
    }
  }

  /** The outcomes a call used. */
  function Used(p: Pipe, q: Pipe): int {
    |p.script| - |q.script|
  }

  predicate Waits(p: Pipe, got: Got, q: Pipe, block: bool) {
    var k := Used(p, q);
    && 0 <= k && q.script == p.script[k..]
    // it goes on over nothing fatal, and, unless it blocks, only over reads that bring bytes
    && (forall i | 0 <= i < k - 1 :: !Fatal(p.script[i]) && (block || (p.script[i].Ready? && p.script[i].read.Gives?)))
    // and it gives up for a reason only, if it blocks
    && (got.NoLine? && block && q.script != [] ==> k > 0 && GivesUp(p.script[k - 1], q))
  }

  lemma {:induction false} RoundsWait(p: Pipe, block: bool, repaired: bool)
    requires Good(p.buf)
    ensures var c := Rounds(p, block, repaired); Waits(p, c.got, c.after, block)
    decreases |p.script|
  {
    hide Rounds, Round, Good, Fatal, GivesUp;
    if p.script == [] {
      RoundsEnd(p, block, repaired);
    } else {
      RoundsStep(p, block, repaired);
      RoundWaits(p, block, repaired);
      var t := Round(p, block, repaired);
      if t.again {
        RoundsWait(t.pipe, block, repaired);
        var c := Rounds(t.pipe, block, repaired);
        WaitsBehind(p, t.pipe, c.got, c.after, block);
      }
    }
  }

  lemma WaitsBehind(p: Pipe, r: Pipe, got: Got, q: Pipe, block: bool)
    requires p.script != [] && r.script == p.script[1..] && Waits(r, got, q, block)
    requires !Fatal(p.script[0]) && (block || (p.script[0].Ready? && p.script[0].read.Gives?))
    ensures Waits(p, got, q, block)
  {
    hide Fatal, GivesUp;
    var k := Used(r, q);
    assert p.script[1..][k..] == p.script[k + 1..];
    forall i | 0 <= i < k
      ensures !Fatal(p.script[i]) && (block || (p.script[i].Ready? && p.script[i].read.Gives?))
    {
      assert i > 0 ==> p.script[i] == r.script[i - 1];
    }
  }

  /** A call with a complete line pending makes no system call. Another one goes on over hiccups, idle times and missing
      memory only if it blocks, and over reads without a newline in any case; it ends at any other error, and if it
      blocks, without a line, only at an error, at the end of the stream, or with a buffer too big to double. */
  lemma NextWaits(p: Pipe, block: bool, repaired: bool)
    requires Good(p.buf)
    ensures var c := Next(p, block, repaired);
            Waits(p, c.got, c.after, block) && (LF in Pending(p.buf) ==> c.after.script == p.script && !c.got.NoLine?)
  {
    hide Rounds, Take, Fatal, GivesUp;
    TakeIs(p.buf, p.buf.ptr, []);
    RoundsWait(p, block, repaired);
    assert p.script[0..] == p.script;
  }
}
