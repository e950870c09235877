/** The input buffer of src/modules/module_readline.c. `ModuleReadlineSpec` says what a call returns and leaves, for
    given outcomes of the system calls; `ModuleReadline` is the buffer proved against it. */
module ModuleReadlineSpec {
  import opened Bytes
  import opened Collections

  const SIZE_T := 0x1_0000_0000_0000_0000
  const INIT_DATA_ALLOCATED := 2

  datatype ReadOutcome =
    | ReadHiccup
    | ReadError
    // hands over at most n + 1 bytes, as far as there are any and there is room; what the memory holds behind them
    | Gives(n: nat, behind: seq<Byte>)

  /** What one round of select, realloc and read does. */
  datatype Outcome =
    | Hiccup      // select is interrupted
    | Idle        // select finds nothing to read
    | SelectError
    | Ready(memory: bool, read: ReadOutcome) // `memory`: the buffer can grow if it has to

  /** The buffer: its bytes up to the last pending one, the first pending one, its size, and the most bytes that were
      ever pending. */
  datatype Buf = Buf(seen: seq<Byte>, ptr: nat, cap: nat, most: nat)

  /** The buffer, the bytes on their way, and what the system calls will do. */
  datatype Pipe = Pipe(buf: Buf, incoming: seq<Byte>, script: seq<Outcome>)

  /** What a scan gives. `whole` is a line with what follows a NUL in it. A stale newline, one before the pending bytes,
      gives a wrong line, and the bytes behind it become pending again. */
  datatype Got = NoLine | Line(line: seq<Byte>, whole: seq<Byte>) | Stale(line: seq<Byte>, back: seq<Byte>)

  predicate Good(b: Buf) {
    && b.ptr <= |b.seen| <= b.cap < SIZE_T
    && (b.ptr == |b.seen| ==> b.seen == [])
    && (b.ptr > 0 ==> b.seen[b.ptr - 1] == LF)
    && |b.seen| - b.ptr <= b.most
    && b.cap <= Max(INIT_DATA_ALLOCATED, 2 * b.most)
  }

  function Pending(b: Buf): seq<Byte>
    requires Good(b)
  {
    b.seen[b.ptr..]
  }

  /** The line up to a newline. Before the pending bytes the length computed in size_t is 0, or so big that strndup
      copies up to the next NUL in memory. */
  function Cut(b: Buf, end: nat, behind: seq<Byte>): Got
    requires Good(b) && 0 < end <= |b.seen|
  {
    if end > b.ptr then Line(UntilNul(b.seen[b.ptr..end]), b.seen[b.ptr..end])
    else Stale(if end == b.ptr then [] else UntilNul(Pending(b) + behind), b.seen[end..b.ptr])
  }

  /** What is left behind that line. */
  function Left(b: Buf, end: nat): (r: Buf)
    requires Good(b) && 0 < end <= |b.seen| && b.seen[end - 1] == LF
    ensures Good(r)
  {
    if end == |b.seen| then b.(seen := [], ptr := 0) else b.(ptr := end, most := Max(b.most, |b.seen| - end))
  }

  /** Scan from a place on, and return the line up to the newline found. */
  function Take(b: Buf, from: nat, behind: seq<Byte>): (r: (Got, Buf))
    requires Good(b) && from <= |b.seen|
    ensures Good(r.1) && (r.0.NoLine? ==> r.1 == b)
  {
    var end := Memchr(b.seen, LF, from) + 1;
    if end > |b.seen| then (NoLine, b) else (Cut(b, end, behind), Left(b, end))
  }

  lemma GoodPtr(b: Buf)
    requires Good(b)
    ensures b.ptr <= |b.seen| < SIZE_T
  {
  }

  /** Sums and differences in size_t. */
  function SizeSum(a: nat, b: nat): nat {
    (a + b) % SIZE_T
  }

  function SizeDifference(a: nat, b: nat): nat {
    (a - b) % SIZE_T
  }

  /** A length below 0 wraps around, and wraps back. */
  lemma WrapsAround(used: nat, ptr: nat, end: nat)
    requires end <= ptr + used < SIZE_T
    ensures var len := SizeDifference(end, ptr);
      SizeDifference(used, len) == ptr + used - end && SizeSum(ptr, len) == end
  {
  }

  datatype Room = Room(ok: bool, overflow: bool, buf: Buf)

  /** Before a read: pending bytes at the end of the buffer move to its front, or the buffer doubles. */
  function MakeRoom(b: Buf, memory: bool): (r: Room)
    requires Good(b)
    ensures Good(r.buf) && Pending(r.buf) == Pending(b) && r.buf.most == b.most
    ensures r.ok ==> |r.buf.seen| < r.buf.cap
    ensures !r.ok ==> r.buf == b
  {
    if |b.seen| < b.cap then Room(true, false, b)
    else if b.ptr > 0 then Room(true, false, b.(seen := Pending(b), ptr := 0))
    else
      var newAllocated := if b.cap == 0 then INIT_DATA_ALLOCATED else 2 * b.cap % SIZE_T;
      if newAllocated < b.cap then Room(false, true, b)
      else if !memory then Room(false, false, b)
      else Room(true, false, b.(cap := newAllocated))
  }

  /** The bytes a read hands over, 0 at the end of the stream. */
  function Amount(b: Buf, incoming: seq<Byte>, n: nat): (k: nat)
    requires Good(b)
    ensures |b.seen| + k <= b.cap && k <= |incoming|
    ensures |b.seen| < b.cap && incoming != [] ==> k > 0
  {
    Min(Min(n + 1, b.cap - |b.seen|), |incoming|)
  }

  function WithBytes(b: Buf, bytes: seq<Byte>): (r: Buf)
    requires Good(b) && |b.seen| + |bytes| <= b.cap && bytes != []
    ensures Good(r) && Pending(r) == Pending(b) + bytes
  {
    Buf(b.seen + bytes, b.ptr, b.cap, Max(b.most, |b.seen| + |bytes| - b.ptr))
  }

  lemma RoundsStep(p: Pipe, block: bool, repaired: bool)
    requires Good(p.buf) && p.script != []
    ensures var t := Round(p, block, repaired); var all := Rounds(p, block, repaired);
            if t.again then
              var c := Rounds(t.pipe, block, repaired);
              all.got == c.got && all.after == c.after && all.chunks == t.chunks + c.chunks
            else all == Call(p, t.got, t.pipe, t.chunks)
  {
  }

  lemma RoundsEnd(p: Pipe, block: bool, repaired: bool)
    requires Good(p.buf)
    ensures p.script == [] ==> Rounds(p, block, repaired) == Call(p, NoLine, p, [])
  {
  }

  /** After a round: whether the loop goes on, what it found, what is left, and the bytes it read. */
  datatype Turn = Turn(again: bool, got: Got, pipe: Pipe, chunks: seq<seq<Byte>>)

  /** A read into the room there is, and the scan after it; `repaired` restarts the scan at the first pending byte
      instead of at 0. */
  function Filled(p: Pipe, n: nat, behind: seq<Byte>, repaired: bool): (t: Turn)
    requires Good(p.buf)
    ensures Good(t.pipe.buf) && t.pipe.script == p.script && (t.again ==> t.got.NoLine?)
  {
    var k := Amount(p.buf, p.incoming, n);
    if k == 0 then Turn(false, NoLine, p, [])
    else
      var b := WithBytes(p.buf, p.incoming[..k]);
      var (got, left) := Take(b, if repaired then b.ptr else 0, behind);
      Turn(got.NoLine?, got, p.(buf := left, incoming := p.incoming[k..]), [p.incoming[..k]])
  }

  /** One round of the loop after a fruitless scan. */
  function Round(p: Pipe, block: bool, repaired: bool): (t: Turn)
    requires Good(p.buf) && p.script != []
    ensures Good(t.pipe.buf) && t.pipe.script == p.script[1..]
    ensures t.again ==> t.got.NoLine?
  {
    var q := p.(script := p.script[1..]);
    match p.script[0]
    case Hiccup => Turn(block, NoLine, q, [])
    case Idle => Turn(block, NoLine, q, [])
    case SelectError => Turn(false, NoLine, q, [])
    case Ready(memory, read) =>
      var room := MakeRoom(p.buf, memory);
      var r := q.(buf := room.buf);
      if !room.ok then Turn(!room.overflow && block, NoLine, r, [])
      else
        match read
        case ReadHiccup => Turn(block, NoLine, r, [])
        case ReadError => Turn(false, NoLine, r, [])
        case Gives(n, behind) => Filled(r, n, behind, repaired)
  }

  /** A call: what was there, what it returned, what is there afterwards, and the bytes each read brought. */
  datatype Call = Call(before: Pipe, got: Got, after: Pipe, chunks: seq<seq<Byte>>)

  /** The rounds until one returns; NoLine also when the script is used up. */
  function Rounds(p: Pipe, block: bool, repaired: bool): (c: Call)
    requires Good(p.buf)
    ensures Good(c.after.buf) && c.before == p
    decreases |p.script|
  {
    if p.script == [] then Call(p, NoLine, p, [])
    else
      var t := Round(p, block, repaired);
      if !t.again then Call(p, t.got, t.pipe, t.chunks)
      else
        var c := Rounds(t.pipe, block, repaired);
        Call(p, c.got, c.after, t.chunks + c.chunks)
  }

  /** module_readline */
  function Next(p: Pipe, block: bool, repaired: bool): (c: Call)
    requires Good(p.buf)
    ensures Good(c.after.buf) && c.before == p
  {
    var (got, left) := Take(p.buf, p.buf.ptr, []);
    if got.NoLine? then Rounds(p, block, repaired) else Call(p, got, p.(buf := left), [])
  }

  function LineOf(g: Got): Option<seq<Byte>> {
    match g
    case NoLine => None
    case Line(line, _) => Some(line)
    case Stale(line, _) => Some(line)
  }
}

module ModuleReadline {
  import opened Bytes
  import opened Collections
  import opened ModuleReadlineSpec

  /** The descriptor: bytes on their way and what the system calls on it will do. */
  class Input {
    var incoming: seq<Byte>
    var script: seq<Outcome>

    constructor (incoming: seq<Byte>, script: seq<Outcome>)
      ensures this.incoming == incoming && this.script == script
    {
      this.incoming, this.script := incoming, script;
    }
  }

  class Reader {
    var data: array<Byte>
    var dataPtr: nat  // first pending byte
    var dataUsed: nat // number of pending bytes
    var dataNoLf: nat // where the scan for a newline goes on
    ghost var buf: Buf
    const repaired: bool // after a read, restart the scan at dataPtr instead of 0

    ghost predicate Shape()
      reads this, data
    {
      && dataPtr + dataUsed <= data.Length
      && buf.seen == data[..dataPtr + dataUsed] && buf.ptr == dataPtr && buf.cap == data.Length
      && Good(buf)
    }

    /** Before the scan index there is no newline among the pending bytes. */
    ghost predicate Scanned()
      requires Shape()
      reads this, data
    {
      dataUsed > 0 ==> dataPtr <= dataNoLf <= dataPtr + dataUsed && LF !in buf.seen[dataPtr..dataNoLf]
    }

    ghost predicate Valid()
      reads this, data
    {
      Shape() && Scanned()
    }

    constructor (repaired: bool)
      ensures Valid() && buf == Buf([], 0, 0, 0) && this.repaired == repaired && fresh(data)
    {
      data := new Byte[0];
      dataPtr, dataUsed, dataNoLf, buf := 0, 0, 0, Buf([], 0, 0, 0);
      this.repaired := repaired;
    }

    lemma IsGood()
      requires Valid()
      ensures Good(buf)
    {
    }

    /** The loop that looks for a newline, from dataNoLf on. */
    method Scan() returns (found: bool)
      requires Shape() && dataNoLf <= dataPtr + dataUsed
      modifies this`dataNoLf
      ensures dataNoLf == Memchr(buf.seen, LF, old(dataNoLf)) && (found <==> dataNoLf < dataPtr + dataUsed)
    {
      hide Memchr, Good;
      while dataNoLf < dataPtr + dataUsed
        invariant old(dataNoLf) <= dataNoLf <= dataPtr + dataUsed
        invariant forall i | old(dataNoLf) <= i < dataNoLf :: buf.seen[i] != LF
      {
        if data[dataNoLf] == LF {
          MemchrIs(buf.seen, LF, old(dataNoLf), dataNoLf);
          return true;
        }
        dataNoLf := dataNoLf + 1;
      }
      MemchrIs(buf.seen, LF, old(dataNoLf), dataNoLf);
      return false;
    }

    /** The scan of a call may skip what is known to hold no newline. */
    lemma ScanFromPtr(from: nat)
      requires Shape() && dataPtr <= from <= |buf.seen| && LF !in buf.seen[dataPtr..from]
      ensures Memchr(buf.seen, LF, dataPtr) == Memchr(buf.seen, LF, from)
    {
      hide Memchr;
      forall i | dataPtr <= i < from
        ensures buf.seen[i] != LF
      {
        assert buf.seen[i] in buf.seen[dataPtr..from];
      }
      MemchrIs(buf.seen, LF, dataPtr, Memchr(buf.seen, LF, from));
    }

    /** Where the scan begins, as far as its result goes. */
    ghost function From(): nat
      requires Shape()
      reads this, data
    {
      if Scanned() then dataPtr else 0
    }

    /** The scan, of some pending bytes. */
    method Look() returns (found: bool)
      requires Shape() && (Scanned() || dataNoLf == 0) && dataUsed > 0
      modifies this`dataNoLf
      ensures var end := Memchr(buf.seen, LF, old(From())) + 1;
              (found <==> end <= |buf.seen|) && dataNoLf == if found then end else |buf.seen|
      ensures !found ==> Scanned()
    {
      hide Memchr, Good;
      ghost var from := From();
      if Scanned() {
        ScanFromPtr(dataNoLf);
      }
      found := Scan();
      if found {
        dataNoLf := dataNoLf + 1;
      }
      assert !found ==> forall i | from <= i < |buf.seen| :: buf.seen[i] != LF;
    }

    /** strndup of what stands before dataNoLf; `behind` is what the memory holds behind the pending bytes. */
    method Strndup(behind: seq<Byte>) returns (line: seq<Byte>)
      requires Shape() && dataUsed > 0 && 0 < dataNoLf <= |buf.seen|
      ensures LineOf(Cut(buf, dataNoLf, behind)) == Some(line)
    {
      hide UntilNul;
      if dataNoLf > dataPtr {
        line := UntilNul(data[dataPtr..dataNoLf]);
        assert data[dataPtr..dataNoLf] == buf.seen[dataPtr..dataNoLf];
      } else if dataNoLf == dataPtr {
        line := [];
      } else {
        line := UntilNul(data[dataPtr..dataPtr + dataUsed] + behind);
        assert data[dataPtr..dataPtr + dataUsed] == Pending(buf);
      }
    }

    static lemma LeftIs(b: Buf, end: nat)
      requires Good(b) && 0 < end <= |b.seen| && b.seen[end - 1] == LF
      ensures var r := Left(b, end);
              && r.cap == b.cap && Good(r)
              && if end == |b.seen| then r.seen == [] && r.ptr == 0 else r.seen == b.seen && r.ptr == end
    {
    }

    /** The length is subtracted from dataUsed and added to dataPtr, in size_t. */
    method Advance()
      requires Shape() && dataUsed > 0 && 0 < dataNoLf <= |buf.seen| && buf.seen[dataNoLf - 1] == LF
      modifies this`dataPtr, this`dataUsed, this`buf
      ensures Valid() && buf == Left(old(buf), dataNoLf)
    {
      hide UntilNul, Good, Left, SizeSum, SizeDifference;
      GoodPtr(buf);
      LeftIs(buf, dataNoLf);
      WrapsAround(dataUsed, dataPtr, dataNoLf);
      var len := SizeDifference(dataNoLf, dataPtr);
      dataUsed := SizeDifference(dataUsed, len);
      if dataUsed == 0 {
        dataPtr := 0;
      } else {
        dataPtr := SizeSum(dataPtr, len);
      }
      buf := Left(buf, dataNoLf);
    }

    /** The head of the loop: return a line if the scan finds a newline. */
    method TakeLine(behind: seq<Byte>) returns (line: Option<seq<Byte>>)
      requires Shape() && (Scanned() || dataNoLf == 0)
      modifies this`dataPtr, this`dataUsed, this`dataNoLf, this`buf
      ensures Valid()
      ensures var (got, left) := Take(old(buf), old(From()), behind); buf == left && line == LineOf(got)
      ensures line == None ==> dataUsed == old(dataUsed) && (dataUsed > 0 ==> dataNoLf == dataPtr + dataUsed)
    {
      hide Memchr, Cut, Left, Good;
      if dataUsed == 0 {
        return None;
      }
      var found := Look();
      if !found {
        return None;
      }
      var str := Strndup(behind);
      Advance();
      line := Some(str);
    }

    /** Move the pending bytes to the front. */
    method Compact()
      requires Shape() && dataPtr + dataUsed == data.Length && dataPtr > 0 && dataNoLf == dataPtr + dataUsed
      modifies this`dataPtr, this`dataNoLf, this`buf, data
      ensures Shape() && buf == old(buf).(seen := Pending(old(buf)), ptr := 0) && dataNoLf == dataUsed == old(dataUsed)
    {
      buf := buf.(seen := Pending(buf), ptr := 0);
      forall i | 0 <= i < dataUsed {
        data[i] := data[dataPtr + i];
      }
      dataNoLf := dataNoLf - dataPtr;
      dataPtr := 0;
      assert data[..dataUsed] == buf.seen;
    }

    /** Double the buffer. */
    method Grow(memory: bool) returns (ok: bool, overflow: bool)
      requires Shape() && dataPtr == 0 && dataUsed == data.Length
      modifies this`data, this`buf
      ensures Shape() && (data == old(data) || fresh(data))
      ensures MakeRoom(old(buf), memory) == Room(ok, overflow, buf)
    {
      var newAllocated := INIT_DATA_ALLOCATED;
      overflow := false;
      if data.Length > 0 {
        newAllocated := data.Length * 2 % SIZE_T;
        if newAllocated < data.Length {
          return false, true;
        }
      }
      if !memory {
        return false, false;
      }
      var newData := new Byte[newAllocated];
      forall i | 0 <= i < data.Length {
        newData[i] := data[i];
      }
      assert newData[..dataUsed] == data[..dataUsed];
      buf := MakeRoom(buf, memory).buf;
      data := newData;
      ok := true;
    }

    /** What the loop knows after a fruitless scan. */
    ghost predicate NoLineYet()
      reads this, data
    {
      Shape() && (dataUsed > 0 ==> Scanned() && dataNoLf == dataPtr + dataUsed)
    }

    /** Make room for a read, if there is none. */
    method Prepare(memory: bool) returns (ok: bool, overflow: bool)
      requires NoLineYet()
      modifies this`data, this`dataPtr, this`dataNoLf, this`buf, data
      ensures NoLineYet() && (data == old(data) || fresh(data))
      ensures MakeRoom(old(buf), memory) == Room(ok, overflow, buf)
    {
      ok, overflow := true, false;
      if dataPtr + dataUsed == data.Length {
        if dataPtr > 0 {
          Compact();
        } else {
          ok, overflow := Grow(memory);
        }
      }
    }

    /** Copy bytes behind the pending ones. */
    method CopyIn(bytes: seq<Byte>)
      requires dataPtr + dataUsed + |bytes| <= data.Length
      modifies data
      ensures data[..dataPtr + dataUsed + |bytes|] == old(data[..dataPtr + dataUsed]) + bytes
    {
      forall i | 0 <= i < |bytes| {
        data[dataPtr + dataUsed + i] := bytes[i];
      }
    }

    static lemma WithBytesIs(b: Buf, bytes: seq<Byte>)
      requires Good(b) && |b.seen| + |bytes| <= b.cap && bytes != []
      ensures var r := WithBytes(b, bytes); Good(r) && r.seen == b.seen + bytes && r.ptr == b.ptr && r.cap == b.cap
    {
    }

    /** Put what read hands over behind the pending bytes; 0 is the end of the stream. */
    method Receive(input: Input, n: nat) returns (k: nat)
      requires NoLineYet() && dataPtr + dataUsed < data.Length
      modifies this`dataUsed, this`dataNoLf, this`buf, data, input`incoming
      ensures k == Amount(old(buf), old(input.incoming), n)
      ensures k == 0 ==> NoLineYet() && buf == old(buf) && input.incoming == old(input.incoming)
      ensures k > 0 ==>
                && Shape() && buf == WithBytes(old(buf), old(input.incoming)[..k])
                && input.incoming == old(input.incoming)[k..] && dataNoLf == if repaired then dataPtr else 0
    {
      hide Good, Scanned, WithBytes;
      k := Min(Min(n + 1, data.Length - dataPtr - dataUsed), |input.incoming|);
      if k == 0 {
        return;
      }
      var bytes := input.incoming[..k];
      WithBytesIs(buf, bytes);
      CopyIn(bytes);
      buf := WithBytes(buf, bytes);
      input.incoming := input.incoming[k..];
      dataUsed := dataUsed + k;
      dataNoLf := if repaired then dataPtr else 0;
    }

    ghost function PipeOf(input: Input): Pipe
      reads this, input
    {
      Pipe(buf, input.incoming, input.script)
    }

    /** Read into the room there is, and scan again. */
    method ReadAndScan(input: Input, n: nat, behind: seq<Byte>) returns (again: bool, line: Option<seq<Byte>>)
      requires NoLineYet() && dataPtr + dataUsed < data.Length
      modifies this`dataPtr, this`dataUsed, this`dataNoLf, this`buf, data, input`incoming
      ensures Valid() && (line == None ==> NoLineYet()) && (again ==> line == None)
      ensures var t := Filled(old(PipeOf(input)), n, behind, repaired);
              again == t.again && line == LineOf(t.got) && PipeOf(input) == t.pipe
    {
      hide WithBytes, Amount, Take;
      var k := Receive(input, n);
      if k == 0 {
        return false, None;
      }
      line := TakeLine(behind);
      again := line == None;
    }

    /** One round: select, make room, read, scan again. */
    method OneRound(input: Input, block: bool) returns (again: bool, line: Option<seq<Byte>>)
      requires NoLineYet() && input.script != []
      modifies this, data, input
      ensures Valid() && (data == old(data) || fresh(data))
      ensures (line == None ==> NoLineYet()) && (again ==> line == None)
      ensures var t := Round(old(PipeOf(input)), block, repaired);
              again == t.again && line == LineOf(t.got) && PipeOf(input) == t.pipe
    {
      hide MakeRoom, Filled, Good;
      var outcome := input.script[0];
      input.script := input.script[1..];
      again, line := block, None;
      match outcome
      case Hiccup =>
      case Idle =>
      case SelectError => again := false;
      case Ready(memory, read) =>
        var ok, overflow := Prepare(memory);
        if !ok {
          again := !overflow && block;
          return;
        }
        match read
        case ReadHiccup =>
        case ReadError => again := false;
        case Gives(n, behind) => again, line := ReadAndScan(input, n, behind);
    }

    /** The rounds after a fruitless scan. */
    method ReadMore(input: Input, block: bool) returns (line: Option<seq<Byte>>)
      requires NoLineYet()
      modifies this, data, input
      ensures Valid() && (data == old(data) || fresh(data))
      ensures var c := Rounds(old(PipeOf(input)), block, repaired); line == LineOf(c.got) && PipeOf(input) == c.after
    {
      hide Rounds, Round, Good;
      ghost var all := Rounds(PipeOf(input), block, repaired);
      line := None;
      var again := true;
      while again && input.script != []
        invariant Valid() && (data == old(data) || fresh(data)) && (again ==> NoLineYet() && line == None)
        invariant again ==> var c := Rounds(PipeOf(input), block, repaired); all.got == c.got && all.after == c.after
        invariant !again ==> line == LineOf(all.got) && PipeOf(input) == all.after
        decreases |input.script|, again
      {
        RoundsStep(PipeOf(input), block, repaired);
        again, line := OneRound(input, block);
      }
      RoundsEnd(PipeOf(input), block, repaired);
    }

    /** module_readline; None is NULL, also when the calls run out. */
    method ReadLine(input: Input, block: bool) returns (line: Option<seq<Byte>>)
      requires Valid()
      modifies this, data, input
      ensures Valid() && (data == old(data) || fresh(data))
      ensures var c := Next(old(PipeOf(input)), block, repaired); line == LineOf(c.got) && PipeOf(input) == c.after
    {
      hide Rounds, Take, Good;
      line := TakeLine([]);
      if line == None {
        line := ReadMore(input, block);
      }
    }
  }
}
