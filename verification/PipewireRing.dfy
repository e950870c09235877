/** The byte ring between pipewire_feed_sync_overlap (producer) and on_process (consumer) of src/audio/pipewire.c.

    The two run on two threads without a lock.  Both ring indices are 32-bit counters that wrap; an index modulo the
    buffer size is the place in the buffer.  Loading the indices, copying one byte and publishing an index are
    separate atomic steps, in any interleaving. */
module PipewireRing {
  import opened Collections
  import opened Bytes

  const SIZE := 16 * 1024
  const WRAP := 0x1_0000_0000

  /** The 32-bit difference of two indices, read as signed. */
  function Fill(windex: nat, rindex: nat): int {
    var d := (windex - rindex) % WRAP;
    if d < WRAP / 2 then d else d - WRAP
  }

  datatype Producer =
    | ProducerLoop                          // at the head of the feeding loop, or returned if nothing is left
    | Writing(windex: nat, n: nat, i: nat)  // i of n bytes copied to the place of windex

  datatype Consumer =
    | ConsumerIdle
    | Reading(rindex: nat, n: nat, i: nat, total: nat, ask: Ask, dest: seq<Byte>)

  /** What pipewire asks for, in frames of `stride` bytes (0: it names no amount), and how many bytes were unread. */
  datatype Ask = Ask(requested: nat, stride: nat, unread: int)

  /** A buffer handed to pipewire, whose memory held `before`: its first `data` bytes came from the ring. */
  datatype Chunk = Chunk(ask: Ask, data: nat, before: seq<Byte>, bytes: seq<Byte>)

  datatype State = State(
    buf: seq<Byte>, rindex: nat, windex: nat,
    producer: Producer, rest: seq<Byte>, // what is left of the track being fed
    consumer: Consumer, before: seq<Byte>,
    fed: seq<Byte>,        // all tracks fed so far
    written: nat, read: nat, // the indices, unwrapped
    chunks: seq<Chunk>)

  datatype Step =
    | Feed(track: seq<Byte>)
    | LoadRoom
    | WriteByte
    | PublishWrite
    | Process(memory: seq<Byte>, requested: nat, stride: nat) // memory is the mapped buffer, of maxsize bytes
    | ReadByte
    | PublishRead

  function Init(buf: seq<Byte>): State {
    State(buf, 0, 0, ProducerLoop, [], ConsumerIdle, [], [], 0, 0, [])
  }

  predicate Enabled(s: State, step: Step) {
    match step
    case Feed(track) => s.producer.ProducerLoop? && s.rest == []
    case LoadRoom => s.producer.ProducerLoop? && s.rest != []
    case WriteByte => s.producer.Writing? && s.producer.i < s.producer.n
    case PublishWrite => s.producer.Writing? && s.producer.i == s.producer.n
    case Process(_, _, _) => s.consumer.ConsumerIdle?
    case ReadByte => s.consumer.Reading? && s.consumer.i < s.consumer.n
    case PublishRead => s.consumer.Reading? && s.consumer.i == s.consumer.n
  }

  /** The place in the buffer of byte i after an index. */
  function Place(index: nat, i: nat): (p: nat)
    ensures p < SIZE
  {
    (index % SIZE + i) % SIZE
  }

  function Zeros(n: nat): seq<Byte> {
    seq(n, _ => 0)
  }

  function Do(s: State, step: Step): State
    requires Enabled(s, step)
    requires |s.buf| == SIZE
    requires step.WriteByte? ==> s.producer.i < |s.rest|
    requires step.PublishWrite? ==> s.producer.n <= |s.rest|
    requires step.ReadByte? ==> s.consumer.i < |s.consumer.dest|
    requires step.PublishRead? ==> s.consumer.n <= s.consumer.total <= |s.consumer.dest|
  {
    match step
    case Feed(track) => s.(rest := track, fed := s.fed + track)
    case LoadRoom =>
      var room := (SIZE - Fill(s.windex, s.rindex)) % WRAP;
      if room == 0 then s else s.(producer := Writing(s.windex, Min(|s.rest|, room), 0))
    case WriteByte =>
      var p := s.producer;
      s.(buf := s.buf[Place(p.windex, p.i) := s.rest[p.i]], producer := p.(i := p.i + 1))
    case PublishWrite =>
      var p := s.producer;
      s.(windex := (p.windex + p.n) % WRAP, written := s.written + p.n, rest := s.rest[p.n..], producer := ProducerLoop)
    case Process(memory, requested, stride) =>
      var maxsize := |memory|;
      var total := if requested > 0 then Min(maxsize, requested * stride) else maxsize;
      var available := Fill(s.windex, s.rindex);
      var n := if available > 0 then Min(available, total) else 0;
      s.(consumer := Reading(s.rindex, n, 0, total, Ask(requested, stride, s.written - s.read), memory),
         before := memory)
    case ReadByte =>
      var c := s.consumer;
      s.(consumer := c.(i := c.i + 1, dest := c.dest[c.i := s.buf[Place(c.rindex, c.i)]]))
    case PublishRead =>
      var c := s.consumer;
      var bytes := if c.ask.requested > 0 then c.dest[..c.n] + Zeros(c.total - c.n) else c.dest[..c.total];
      s.(rindex := if c.n > 0 then (c.rindex + c.n) % WRAP else s.rindex, read := s.read + c.n,
         consumer := ConsumerIdle, chunks := s.chunks + [Chunk(c.ask, c.n, s.before, bytes)])
  }

  // ---------------------------------------------------------------- the invariant

  /** The unread bytes and those just being written are in their places. */
  predicate Stored(buf: seq<Byte>, fed: seq<Byte>, from: nat, to: nat)
    requires |buf| == SIZE
  {
    to <= |fed| && forall k | from <= k < to :: buf[k % SIZE] == fed[k]
  }

  function InFlight(p: Producer): nat {
    if p.Writing? then p.i else 0
  }

  predicate InvIndices(s: State) {
    && |s.buf| == SIZE
    && s.windex == s.written % WRAP && s.rindex == s.read % WRAP
    && s.read <= s.written <= s.read + SIZE
  }

  predicate InvProducer(s: State)
    requires |s.buf| == SIZE
  {
    && s.written + |s.rest| == |s.fed|
    && s.rest == s.fed[s.written..]
    && (s.producer.Writing? ==>
          && s.producer.windex == s.windex && s.producer.i <= s.producer.n <= |s.rest|
          && s.written + s.producer.n <= s.read + SIZE)
    && Stored(s.buf, s.fed, s.read, s.written + InFlight(s.producer))
  }

  predicate InvConsumer(s: State) {
    s.consumer.Reading? ==>
      var c := s.consumer;
      && c.rindex == s.rindex && c.i <= c.n <= c.total <= |c.dest| && |s.before| == |c.dest|
      && s.read + c.n <= s.written <= |s.fed|
      && c.dest[..c.i] == s.fed[s.read..s.read + c.i]
      && c.dest[c.i..] == s.before[c.i..]
      && c.total == Wanted(c.ask, |c.dest|) && c.n == Min(c.ask.unread, c.total)
  }

  /** The data bytes of all buffers so far, in order. */
  function Delivered(chunks: seq<Chunk>): seq<Byte> {
    if chunks == [] then []
    else
      var c := chunks[|chunks| - 1];
      Delivered(chunks[..|chunks| - 1]) + if c.data <= |c.bytes| then c.bytes[..c.data] else c.bytes
  }

  /** As much as asked for and as there is memory, and all the memory if no amount is named. */
  function Wanted(ask: Ask, maxsize: nat): nat {
    if ask.requested > 0 then Min(maxsize, ask.requested * ask.stride) else maxsize
  }

  /** The wanted length: as much data as was unread, then silence, or, if pipewire named no amount, what was in the
      memory before. */
  predicate GoodChunk(c: Chunk) {
    && |c.bytes| == Wanted(c.ask, |c.before|) <= |c.before|
    && c.data == Min(c.ask.unread, |c.bytes|)
    && c.bytes[c.data..] == if c.ask.requested > 0 then Zeros(|c.bytes| - c.data) else c.before[c.data..]
  }

  predicate InvOutput(s: State) {
    && s.read <= |s.fed| && Delivered(s.chunks) == s.fed[..s.read]
    && forall c | c in s.chunks :: GoodChunk(c)
  }

  predicate Inv(s: State) {
    InvIndices(s) && InvProducer(s) && InvConsumer(s) && InvOutput(s)
  }

  // ---------------------------------------------------------------- index arithmetic

  lemma WholeRounds(r: nat, k: nat)
    ensures (r + k * SIZE) % SIZE == r % SIZE
  {
  }

  lemma SizeDividesWrap(x: nat)
    ensures x % WRAP % SIZE == x % SIZE
  {
    WholeRounds(x % WRAP, x / WRAP * 262144);
  }

  lemma RemainderOfSum(x: nat, i: nat)
    ensures (x % SIZE + i) % SIZE == (x + i) % SIZE
  {
  }

  lemma WrappedPlace(x: nat, i: nat)
    ensures Place(x % WRAP, i) == (x + i) % SIZE
  {
    SizeDividesWrap(x);
    RemainderOfSum(x, i);
  }

  lemma FillIsDistance(written: nat, read: nat)
    requires read <= written <= read + SIZE
    ensures Fill(written % WRAP, read % WRAP) == written - read
  {
  }

  lemma WrapAdds(x: nat, n: nat)
    ensures (x % WRAP + n) % WRAP == (x + n) % WRAP
  {
  }

  /** Less than a buffer apart, two bytes have different places. */
  lemma PlacesDiffer(j: nat, k: nat)
    requires j < k < j + SIZE
    ensures j % SIZE != k % SIZE
  {
  }

  // ---------------------------------------------------------------- every step keeps the invariant

  /** What `Do` asks of a state beyond `Enabled` holds in every state of a run. */
  predicate Ready(s: State, step: Step) {
    && Enabled(s, step) && |s.buf| == SIZE
    && (step.WriteByte? ==> s.producer.i < |s.rest|)
    && (step.PublishWrite? ==> s.producer.n <= |s.rest|)
    && (step.ReadByte? ==> s.consumer.i < |s.consumer.dest|)
    && (step.PublishRead? ==> s.consumer.n <= s.consumer.total <= |s.consumer.dest|)
  }

  lemma InvIsReady(s: State, step: Step)
    requires Inv(s) && Enabled(s, step)
    ensures Ready(s, step)
  {
  }

  lemma FeedKeeps(s: State, track: seq<Byte>)
    requires Inv(s) && Ready(s, Feed(track))
    ensures Inv(Do(s, Feed(track)))
  {
    var t := Do(s, Feed(track));
    assert t.fed[..s.read] == s.fed[..s.read];
    if s.consumer.Reading? {
      var c := s.consumer;
      assert t.fed[s.read..s.read + c.i] == s.fed[s.read..s.read + c.i];
    }
  }

  lemma LoadRoomKeeps(s: State)
    requires Inv(s) && Ready(s, LoadRoom)
    ensures Inv(Do(s, LoadRoom))
  {
    FillIsDistance(s.written, s.read);
  }

  /** The byte being copied goes to a place that holds no unread byte. */
  lemma WritesPastUnread(s: State, k: nat)
    requires Inv(s) && Ready(s, WriteByte) && s.read <= k < s.written + s.producer.i
    ensures Place(s.producer.windex, s.producer.i) != k % SIZE
  {
    WrappedPlace(s.written, s.producer.i);
    PlacesDiffer(k, s.written + s.producer.i);
  }

  lemma WriteByteKeeps(s: State)
    requires Inv(s) && Ready(s, WriteByte)
    ensures Inv(Do(s, WriteByte))
  {
    var p, t := s.producer, Do(s, WriteByte);
    forall k | s.read <= k < s.written + p.i + 1
      ensures t.buf[k % SIZE] == t.fed[k]
    {
      if k < s.written + p.i {
        WritesPastUnread(s, k);
      } else {
        WrappedPlace(s.written, p.i);
      }
    }
  }

  lemma PublishWriteKeeps(s: State)
    requires Inv(s) && Ready(s, PublishWrite)
    ensures Inv(Do(s, PublishWrite))
  {
    WrapAdds(s.written, s.producer.n);
  }

  lemma ProcessKeeps(s: State, memory: seq<Byte>, requested: nat, stride: nat)
    requires Inv(s) && Ready(s, Process(memory, requested, stride))
    ensures Inv(Do(s, Process(memory, requested, stride)))
  {
    FillIsDistance(s.written, s.read);
  }

  lemma ReadByteKeeps(s: State)
    requires Inv(s) && Ready(s, ReadByte)
    ensures Inv(Do(s, ReadByte))
  {
    var c := s.consumer;
    WrappedPlace(s.read, c.i);
    var d := Do(s, ReadByte).consumer.dest;
    assert d[..c.i + 1] == c.dest[..c.i] + [s.fed[s.read + c.i]];
    assert d[c.i + 1..] == c.dest[c.i..][1..];
  }

  lemma ChunkIsGood(s: State)
    requires InvConsumer(s) && Ready(s, PublishRead)
    ensures var c := s.consumer; var chunk := Do(s, PublishRead).chunks[|s.chunks|];
            GoodChunk(chunk) && chunk.data == c.n && chunk.bytes[..c.n] == s.fed[s.read..s.read + c.n]
  {
    var c := s.consumer;
    var chunk := Do(s, PublishRead).chunks[|s.chunks|];
    assert chunk.bytes[..c.n] == c.dest[..c.n];
  }

  lemma DeliveredAppend(chunks: seq<Chunk>, c: Chunk, fed: seq<Byte>, read: nat)
    requires read + c.data <= |fed| && Delivered(chunks) == fed[..read]
    requires c.data <= |c.bytes| && c.bytes[..c.data] == fed[read..read + c.data]
    ensures Delivered(chunks + [c]) == fed[..read + c.data]
  {
    assert (chunks + [c])[..|chunks|] == chunks;
    assert fed[..read] + fed[read..read + c.data] == fed[..read + c.data];
  }

  lemma PublishReadKeepsOutput(s: State)
    requires Inv(s) && Ready(s, PublishRead)
    ensures InvOutput(Do(s, PublishRead))
  {
    hide Stored, GoodChunk, Delivered, Wanted, Zeros, InvIndices, InvProducer;
    ChunkIsGood(s);
    var chunk := Do(s, PublishRead).chunks[|s.chunks|];
    DeliveredAppend(s.chunks, chunk, s.fed, s.read);
  }

  lemma PublishReadKeeps(s: State)
    requires Inv(s) && Ready(s, PublishRead)
    ensures Inv(Do(s, PublishRead))
  {
    WrapAdds(s.read, s.consumer.n);
    PublishReadKeepsOutput(s);
  }

  lemma StepKeeps(s: State, step: Step)
    requires Inv(s) && Ready(s, step)
    ensures Inv(Do(s, step))
  {
    match step
    case Feed(track) => FeedKeeps(s, track);
    case LoadRoom => LoadRoomKeeps(s);
    case WriteByte => WriteByteKeeps(s);
    case PublishWrite => PublishWriteKeeps(s);
    case Process(memory, requested, stride) => ProcessKeeps(s, memory, requested, stride);
    case ReadByte => ReadByteKeeps(s);
    case PublishRead => PublishReadKeeps(s);
  }

  // ---------------------------------------------------------------- runs

  ghost predicate IsRun(run: seq<State>, steps: seq<Step>) {
    && |run| == |steps| + 1
    && |run[0].buf| == SIZE && run[0] == Init(run[0].buf)
    && forall i | 0 <= i < |steps| :: Ready(run[i], steps[i]) && run[i + 1] == Do(run[i], steps[i])
  }

  lemma {:induction false} RunKeeps(run: seq<State>, steps: seq<Step>, i: nat)
    requires IsRun(run, steps) && i < |run|
    ensures Inv(run[i])
  {
    if i > 0 {
      RunKeeps(run, steps, i - 1);
      StepKeeps(run[i - 1], steps[i - 1]);
    }
  }

  /** No step is ever stuck on an index out of range: what is enabled can be done. */
  lemma EnabledIsReady(run: seq<State>, steps: seq<Step>, i: nat, step: Step)
    requires IsRun(run, steps) && i < |run| && Enabled(run[i], step)
    ensures Ready(run[i], step)
  {
    RunKeeps(run, steps, i);
    InvIsReady(run[i], step);
  }

  /** The wrapped indices always tell the true fill, which stays within the buffer. */
  lemma FillIsTrue(run: seq<State>, steps: seq<Step>, i: nat)
    requires IsRun(run, steps) && i < |run|
    ensures var s := run[i]; Fill(s.windex, s.rindex) == s.written - s.read && 0 <= s.written - s.read <= SIZE
  {
    RunKeeps(run, steps, i);
    FillIsDistance(run[i].written, run[i].read);
  }

  /** A byte that is written and not yet read keeps its place and value over every step. */
  lemma UnreadIsKept(run: seq<State>, steps: seq<Step>, i: nat, k: nat)
    requires IsRun(run, steps) && i + 1 < |run| && run[i + 1].read <= k < run[i].written
    ensures run[i].read <= run[i + 1].read
    ensures |run[i].buf| == SIZE == |run[i + 1].buf|
    ensures k < |run[i].fed| && run[i].buf[k % SIZE] == run[i].fed[k] == run[i + 1].buf[k % SIZE]
  {
    RunKeeps(run, steps, i);
    RunKeeps(run, steps, i + 1);
    var s, t := run[i], run[i + 1];
    assert s.written <= t.written && s.fed <= t.fed;
  }

  // ---------------------------------------------------------------- what goes in and what comes out

  /** The bytes of the tracks fed, in order. */
  function TracksOf(steps: seq<Step>): seq<Byte> {
    if steps == [] then []
    else
      var n := |steps| - 1;
      TracksOf(steps[..n]) + if steps[n].Feed? then steps[n].track else []
  }

  lemma {:induction false} FedIsTracks(run: seq<State>, steps: seq<Step>, i: nat)
    requires IsRun(run, steps) && i < |run|
    ensures run[i].fed == TracksOf(steps[..i])
  {
    if i > 0 {
      FedIsTracks(run, steps, i - 1);
      assert steps[..i][..i - 1] == steps[..i - 1];
      hide Place, Zeros, Fill;
    }
  }

  /** What pipewire got from the ring is a prefix of the tracks fed, byte for byte, and every buffer has the length
      asked for: data as far as there was unread data, then silence, or, when pipewire names no amount, what was in
      the memory before. */
  lemma DeliveredIsPrefix(run: seq<State>, steps: seq<Step>, i: nat)
    requires IsRun(run, steps) && i < |run|
    ensures Delivered(run[i].chunks) <= TracksOf(steps[..i])
    ensures forall c | c in run[i].chunks :: GoodChunk(c)
  {
    RunKeeps(run, steps, i);
    FedIsTracks(run, steps, i);
    hide IsRun, TracksOf, Delivered, GoodChunk;
  }

  /** When all is written and read, every byte of every track was delivered. */
  lemma DrainedIsDelivered(run: seq<State>, steps: seq<Step>, i: nat)
    requires IsRun(run, steps) && i < |run| && run[i].rest == [] && run[i].read == run[i].written
    ensures Delivered(run[i].chunks) == TracksOf(steps[..i])
  {
    RunKeeps(run, steps, i);
    FedIsTracks(run, steps, i);
    hide IsRun, TracksOf, Delivered, GoodChunk;
    assert run[i].fed[..run[i].read] == run[i].fed;
  }

  /** What pipewire asks for in each of its callbacks. */
  datatype Call = Call(memory: seq<Byte>, requested: nat, stride: nat)

  function CallsOf(steps: seq<Step>): seq<Call> {
    if steps == [] then []
    else
      var n := |steps| - 1;
      CallsOf(steps[..n])
      + if steps[n].Process? then [Call(steps[n].memory, steps[n].requested, steps[n].stride)] else []
  }

  /** The callback a buffer answers. */
  function Answered(c: Chunk): Call {
    Call(c.before, c.ask.requested, c.ask.stride)
  }

  function AllAnswered(chunks: seq<Chunk>): (r: seq<Call>)
    ensures |r| == |chunks|
  {
    seq(|chunks|, i requires 0 <= i < |chunks| => Answered(chunks[i]))
  }

  function InProgress(s: State): seq<Call> {
    if s.consumer.Reading? then [Call(s.before, s.consumer.ask.requested, s.consumer.ask.stride)] else []
  }

  lemma AnsweredAppend(chunks: seq<Chunk>, c: Chunk)
    ensures AllAnswered(chunks + [c]) == AllAnswered(chunks) + [Answered(c)]
  {
  }

  lemma StepAnswers(s: State, step: Step)
    requires Ready(s, step)
    ensures AllAnswered(Do(s, step).chunks) + InProgress(Do(s, step)) ==
            AllAnswered(s.chunks) + InProgress(s)
            + if step.Process? then [Call(step.memory, step.requested, step.stride)] else []
  {
    hide AllAnswered, Place, Zeros, Fill, Min;
    match step
    case PublishRead => AnsweredAppend(s.chunks, Do(s, step).chunks[|s.chunks|]);
    case _ =>
  }

  /** Every callback is answered with one buffer, in order, but for the one in progress. */
  lemma {:induction false} CallbacksAreAnswered(run: seq<State>, steps: seq<Step>, i: nat)
    requires IsRun(run, steps) && i < |run|
    ensures AllAnswered(run[i].chunks) + InProgress(run[i]) == CallsOf(steps[..i])
  {
    hide Do, AllAnswered, Ready;
    if i == 0 {
      NothingAnswered(run[0].buf);
    } else {
      CallbacksAreAnswered(run, steps, i - 1);
      StepAnswers(run[i - 1], steps[i - 1]);
      assert steps[..i][..i - 1] == steps[..i - 1];
    }
  }

  lemma NothingAnswered(buf: seq<Byte>)
    ensures AllAnswered(Init(buf).chunks) + InProgress(Init(buf)) == []
  {
  }

  // ---------------------------------------------------------------- progress

  /** With a byte of room the producer takes what fits, up to the 16384 bytes of the ring; with none it waits. */
  lemma LoadRoomTakes(run: seq<State>, steps: seq<Step>, i: nat)
    requires IsRun(run, steps) && i < |steps| && steps[i].LoadRoom?
    ensures var s, t := run[i], run[i + 1]; var unread := s.written - s.read;
            if unread < 16384 then
              t.producer.Writing? && t.producer.i == 0 && t.producer.n == Min(|s.rest|, 16384 - unread) > 0
            else t == s
  {
    FillIsTrue(run, steps, i);
    hide Fill;
  }

  /** A callback takes what is unread, as far as it is wanted. */
  lemma ProcessTakes(run: seq<State>, steps: seq<Step>, i: nat)
    requires IsRun(run, steps) && i < |steps| && steps[i].Process?
    ensures var s, c, step := run[i], run[i + 1].consumer, steps[i];
            && c.Reading? && c.i == 0
            && c.n == Min(s.written - s.read,
                          if step.requested > 0 then Min(|step.memory|, step.requested * step.stride)
                          else |step.memory|)
  {
    FillIsTrue(run, steps, i);
    hide Fill;
  }

  predicate Drained(s: State) {
    s.rest == [] && s.read == s.written && s.producer.ProducerLoop? && s.consumer.ConsumerIdle?
  }

  /** A step that brings the ring nearer to being drained. */
  function NextStep(s: State): Step {
    if s.producer.Writing? then (if s.producer.i < s.producer.n then WriteByte else PublishWrite)
    else if s.consumer.Reading? then (if s.consumer.i < s.consumer.n then ReadByte else PublishRead)
    else if s.written > s.read then Process([0], 0, 1)
    else LoadRoom
  }

  /** Copies begun with nothing to copy. */
  function Empty(s: State): nat {
    (if s.producer.Writing? && s.producer.n == 0 then 1 else 0)
    + if s.consumer.Reading? && s.consumer.n == 0 then 1 else 0
  }

  function ConsumerLeft(s: State): int {
    if s.consumer.Reading? then s.consumer.n - s.consumer.i + 1 else if s.written > s.read then 3 else 0
  }

  function ProducerLeft(s: State): int {
    if s.producer.Writing? then s.producer.n - s.producer.i + 1 else if s.rest != [] then SIZE + 3 else 0
  }

  predicate Nearer(t: State, s: State) {
    var unread, unread' := |s.fed| - s.read, |t.fed| - t.read;
    unread' < unread || (unread' == unread &&
      (|t.rest| < |s.rest| || (|t.rest| == |s.rest| &&
        (Empty(t) < Empty(s) || (Empty(t) == Empty(s) &&
          (ConsumerLeft(t) < ConsumerLeft(s) || (ConsumerLeft(t) == ConsumerLeft(s) &&
            ProducerLeft(t) < ProducerLeft(s))))))))
  }

  /** What `NextStep` promises, for its step. */
  predicate StepIsNearer(s: State, step: Step) {
    Ready(s, step) && !step.Feed? && Do(s, step).fed == s.fed && Nearer(Do(s, step), s)
  }

  lemma WriterIsNearer(s: State)
    requires Inv(s) && s.producer.Writing?
    ensures StepIsNearer(s, if s.producer.i < s.producer.n then WriteByte else PublishWrite)
  {
    hide InvOutput, InvConsumer, Zeros, Stored, Place, Fill;
    if s.producer.i < s.producer.n {} else {}
  }

  lemma ReaderIsNearer(s: State)
    requires Inv(s) && s.producer.ProducerLoop? && s.consumer.Reading?
    ensures StepIsNearer(s, if s.consumer.i < s.consumer.n then ReadByte else PublishRead)
  {
    hide InvOutput, InvProducer, Zeros, Place, Fill;
    if s.consumer.i < s.consumer.n {} else {}
  }

  lemma CallbackIsNearer(s: State)
    requires Inv(s) && s.producer.ProducerLoop? && s.consumer.ConsumerIdle? && s.written > s.read
    ensures StepIsNearer(s, Process([0], 0, 1))
  {
    FillIsDistance(s.written, s.read);
    hide InvOutput, InvProducer, InvConsumer, Zeros, Place, Fill;
  }

  lemma LoaderIsNearer(s: State)
    requires Inv(s) && s.producer.ProducerLoop? && s.consumer.ConsumerIdle? && s.written <= s.read && s.rest != []
    ensures StepIsNearer(s, LoadRoom)
  {
    FillIsDistance(s.written, s.read);
    hide InvOutput, InvProducer, InvConsumer, Zeros, Place, Fill;
  }

  lemma NextIsNearer(s: State) returns (t: State)
    requires Inv(s) && !Drained(s)
    ensures var step := NextStep(s);
            Ready(s, step) && !step.Feed? && t == Do(s, step) && t.fed == s.fed && Nearer(t, s)
  {
    if s.producer.Writing? {
      WriterIsNearer(s);
    } else if s.consumer.Reading? {
      ReaderIsNearer(s);
    } else if s.written > s.read {
      CallbackIsNearer(s);
    } else {
      LoaderIsNearer(s);
    }
    hide Do, Nearer, Ready;
    assert StepIsNearer(s, NextStep(s));
    t := Do(s, NextStep(s));
  }

  lemma RunAppend(run: seq<State>, steps: seq<Step>, step: Step, t: State)
    requires IsRun(run, steps) && Ready(run[|run| - 1], step) && t == Do(run[|run| - 1], step)
    ensures IsRun(run + [t], steps + [step])
    ensures !step.Feed? ==> TracksOf(steps + [step]) == TracksOf(steps)
  {
    assert (steps + [step])[..|steps|] == steps;
    hide Do, Ready;
  }

  /** Nobody is ever stuck: every run can go on, with no track more, until every byte of every track is delivered. */
  lemma {:induction false} CanDrain(run: seq<State>, steps: seq<Step>) returns (longer: seq<State>, more: seq<Step>)
    requires IsRun(run, steps)
    ensures IsRun(longer, more) && steps <= more && TracksOf(more) == TracksOf(steps)
    ensures Drained(longer[|longer| - 1]) && Delivered(longer[|longer| - 1].chunks) == TracksOf(steps)
    decreases |run[|run| - 1].fed| - run[|run| - 1].read, |run[|run| - 1].rest|, Empty(run[|run| - 1]),
              ConsumerLeft(run[|run| - 1]), ProducerLeft(run[|run| - 1])
  {
    hide Do, Ready, Inv, TracksOf, Delivered;
    var s := run[|run| - 1];
    RunKeeps(run, steps, |run| - 1);
    if Drained(s) {
      DrainedIsDelivered(run, steps, |run| - 1);
      assert steps[..|steps|] == steps;
      longer, more := run, steps;
    } else {
      var t := NextIsNearer(s);
      Ranks(s);
      RunAppend(run, steps, NextStep(s), t);
      longer, more := CanDrain(run + [t], steps + [NextStep(s)]);
    }
  }

  lemma Ranks(s: State)
    requires Inv(s)
    ensures s.read <= |s.fed| && ConsumerLeft(s) >= 0 && ProducerLeft(s) >= 0
  {
  }
}
