/** Audio from a module to the server: module_tts_output_server of src/modules/module_process.c cuts a track into chunks
    and escapes them, the 705 event of src/server/output.c unescapes them. */
module AudioFrames {
  import opened Collections
  import opened Bytes

  const ESCAPE: Byte := 0x7d
  const MAX_CHUNK := 10000

  // ---------------------------------------------------------------- escaping

  predicate Special(b: Byte) {
    b == LF || b == ESCAPE
  }

  /** Exclusive or with the bit 1 << 5. */
  function Invert(b: Byte): (r: Byte)
    ensures r != b && r % 32 == b % 32 && r / 64 == b / 64
  {
    if b / 32 % 2 == 0 then b + 32 else b - 32
  }

  /** Exclusive or, bit by bit. */
  function Xor(a: nat, b: nat): nat {
    if a == 0 then b else (a + b) % 2 + 2 * Xor(a / 2, b / 2)
  }

  lemma {:induction false} XorNone(a: nat)
    ensures Xor(a, 0) == a
  {
    if a > 0 {
      XorNone(a / 2);
    }
  }

  lemma {:induction false} XorOfDoubled(a: nat, b: nat)
    ensures Xor(a, 2 * b) == a % 2 + 2 * Xor(a / 2, b)
  {
    if a > 0 {
      assert (a + 2 * b) % 2 == a % 2;
    }
  }

  lemma {:induction false} XorOne(a: nat)
    ensures Xor(a, 1) == if a % 2 == 0 then a + 1 else a - 1
  {
    XorNone(a / 2);
  }

  lemma InvertIsXor(b: Byte)
    ensures Invert(b) == Xor(b, 32)
  {
    hide Xor;
    XorOfDoubled(b, 16);
    XorOfDoubled(b / 2, 8);
    XorOfDoubled(b / 4, 4);
    XorOfDoubled(b / 8, 2);
    XorOfDoubled(b / 16, 1);
    XorOne(b / 32);
  }

  lemma InvertTwice(b: Byte)
    ensures Invert(Invert(b)) == b
    ensures Special(b) ==> !Special(Invert(b))
  {
  }

  /** The escape map, byte by byte. */
  function Escaped(t: seq<Byte>): seq<Byte> {
    if t == [] then []
    else (if Special(t[0]) then [ESCAPE, Invert(t[0])] else [t[0]]) + Escaped(t[1..])
  }

  lemma EscapedStep(t: seq<Byte>)
    requires t != []
    ensures Escaped(t) == (if Special(t[0]) then [ESCAPE, Invert(t[0])] else [t[0]]) + Escaped(t[1..])
  {
  }

  /** No newline is left, and the size at most doubles. */
  lemma {:induction false} EscapedIsOneLine(t: seq<Byte>)
    ensures LF !in Escaped(t) && |t| <= |Escaped(t)| <= 2 * |t|
  {
    if t != [] {
      EscapedStep(t);
      InvertTwice(t[0]);
      hide Escaped;
      EscapedIsOneLine(t[1..]);
    }
  }

  /** Bytes without a special one are copied. */
  lemma {:induction false} EscapedCopies(t: seq<Byte>, p: nat, q: nat)
    requires p <= q <= |t| && forall i | p <= i < q :: !Special(t[i])
    ensures Escaped(t[p..]) == t[p..q] + Escaped(t[q..])
    decreases q - p
  {
    if p < q {
      EscapedStep(t[p..]);
      hide Escaped;
      assert t[p..][1..] == t[p + 1..];
      EscapedCopies(t, p + 1, q);
      assert t[p..q] == [t[p]] + t[p + 1..q];
    } else {
      assert t[p..q] == [];
    }
  }

  lemma EscapedAtSpecial(t: seq<Byte>, p: nat)
    requires p < |t| && Special(t[p])
    ensures Escaped(t[p..]) == [ESCAPE, Invert(t[p])] + Escaped(t[p + 1..])
  {
    assert t[p..][1..] == t[p + 1..];
  }

  lemma NothingToEscape()
    ensures Escaped([]) == []
  {
  }

  /** The loop of module_tts_output_send_server: copy up to the nearer of the next escape and the next newline. */
  method Escape(samples: seq<Byte>) returns (out: seq<Byte>)
    ensures out == Escaped(samples)
  {
    hide Escaped, Memchr;
    out := [];
    var p := 0;
    assert samples[0..] == samples;
    while p < |samples|
      invariant p <= |samples|
      invariant Escaped(samples) == out + Escaped(samples[p..])
    {
      var stop := Memchr(samples, ESCAPE, p);
      var nl := Memchr(samples, LF, p);
      if nl < |samples| && (stop == |samples| || nl < stop) {
        stop := nl;
      }
      EscapedCopies(samples, p, stop);
      var next := if stop < |samples| then stop + 1 else |samples|;
      ghost var was := out;
      out := out + samples[p..stop];
      assert Escaped(samples) == out + Escaped(samples[stop..]);
      if stop < |samples| {
        EscapedAtSpecial(samples, stop);
        out := out + [ESCAPE] + [Invert(samples[stop])];
      }
      p := next;
    }
    assert samples[p..] == [];
    NothingToEscape();
  }

  // ---------------------------------------------------------------- unescaping

  /** The inverse map: nothing comes after an escape only if the bytes are cut off. */
  function Unescaped(s: seq<Byte>): Option<seq<Byte>> {
    if s == [] then Some([])
    else if s[0] == ESCAPE then
      if |s| == 1 then None
      else
        var r := Unescaped(s[2..]);
        if r.None? then None else Some([Invert(s[1])] + r.value)
    else
      var r := Unescaped(s[1..]);
      if r.None? then None else Some([s[0]] + r.value)
  }

  function Prepend(d: seq<Byte>, r: Option<seq<Byte>>): Option<seq<Byte>> {
    if r.None? then None else Some(d + r.value)
  }

  lemma UnescapedStep(s: seq<Byte>, p: nat)
    requires p <= |s|
    ensures Unescaped(s[p..]) ==
            if p == |s| then Some([])
            else if s[p] != ESCAPE then Prepend([s[p]], Unescaped(s[p + 1..]))
            else if p + 1 == |s| then None
            else Prepend([Invert(s[p + 1])], Unescaped(s[p + 2..]))
  {
    if p < |s| {
      assert s[p..][1..] == s[p + 1..];
      if p + 1 < |s| {
        assert s[p..][2..] == s[p + 2..];
      }
    }
  }

  /** What is escaped is recovered. */
  lemma {:induction false} UnescapedEscaped(t: seq<Byte>)
    ensures Unescaped(Escaped(t)) == Some(t)
  {
    if t != [] {
      EscapedStep(t);
      var e := Escaped(t);
      var w := if Special(t[0]) then [ESCAPE, Invert(t[0])] else [t[0]];
      hide Escaped;
      assert e[|w|..] == Escaped(t[1..]);
      UnescapedEscaped(t[1..]);
      InvertTwice(t[0]);
      assert e[0..] == e;
      UnescapedStep(e, 0);
      hide Unescaped;
      assert [t[0]] + t[1..] == t;
    }
  }

  lemma {:induction false} UnescapedCopies(s: seq<Byte>, p: nat, q: nat)
    requires p <= q <= |s| && forall i | p <= i < q :: s[i] != ESCAPE
    ensures Unescaped(s[p..]) == Prepend(s[p..q], Unescaped(s[q..]))
    decreases q - p
  {
    if p < q {
      UnescapedStep(s, p);
      hide Unescaped;
      UnescapedCopies(s, p + 1, q);
      assert s[p..q] == [s[p]] + s[p + 1..q];
      assert Unescaped(s[q..]).Some? ==>
          [s[p]] + (s[p + 1..q] + Unescaped(s[q..]).value) == s[p..q] + Unescaped(s[q..]).value;
    } else {
      assert s[p..q] == [];
      PrependNothing(Unescaped(s[q..]));
    }
  }

  lemma PrependTwice(a: seq<Byte>, b: seq<Byte>, r: Option<seq<Byte>>)
    ensures Prepend(a, Prepend(b, r)) == Prepend(a + b, r)
  {
    assert r.Some? ==> a + (b + r.value) == a + b + r.value;
  }

  lemma PrependNothing(r: Option<seq<Byte>>)
    ensures Prepend([], r) == r
  {
    assert r.Some? ==> [] + r.value == r.value;
  }

  /** Bytes of which those chosen are written as an escape and the byte with bit 5 inverted. */
  function Encoding(t: seq<Byte>, chosen: seq<bool>): seq<Byte>
    requires |chosen| == |t|
  {
    if t == [] then []
    else (if chosen[0] then [0x7d, Invert(t[0])] else [t[0]]) + Encoding(t[1..], chosen[1..])
  }

  predicate EscapesChosen(t: seq<Byte>, chosen: seq<bool>) {
    |chosen| == |t| && forall i | 0 <= i < |t| && t[i] == 0x7d :: chosen[i]
  }

  /** Whichever bytes are escaped besides the escape itself, they are recovered; with one escape more they are bogus. */
  lemma {:induction false} EncodingIsDecoded(t: seq<Byte>, chosen: seq<bool>)
    requires EscapesChosen(t, chosen)
    ensures Unescaped(Encoding(t, chosen)) == Some(t)
    ensures Unescaped(Encoding(t, chosen) + [0x7d]) == None
  {
    var e := Encoding(t, chosen);
    if t == [] {
      assert e + [0x7d] == [0x7d];
    } else {
      var w := if chosen[0] then [0x7d, Invert(t[0])] else [t[0]];
      var rest := Encoding(t[1..], chosen[1..]);
      EncodingIsDecoded(t[1..], chosen[1..]);
      InvertTwice(t[0]);
      assert e == w + rest && e[0..] == e && e[|w|..] == rest;
      assert (e + [0x7d])[0..] == e + [0x7d] && (e + [0x7d])[|w|..] == rest + [0x7d];
      UnescapedStep(e, 0);
      UnescapedStep(e + [0x7d], 0);
      hide Unescaped, Encoding;
      assert [t[0]] + t[1..] == t;
    }
  }

  lemma EncodingStep(b: Byte, t: seq<Byte>, escaped: bool, chosen: seq<bool>)
    requires EscapesChosen(t, chosen) && (b == 0x7d ==> escaped)
    ensures EscapesChosen([b] + t, [escaped] + chosen)
    ensures Encoding([b] + t, [escaped] + chosen) ==
            (if escaped then [0x7d, Invert(b)] else [b]) + Encoding(t, chosen)
  {
    assert ([b] + t)[1..] == t && ([escaped] + chosen)[1..] == chosen;
  }

  /** A module escapes newlines and escapes, and nothing else. */
  lemma {:induction false} EscapesNoMore(t: seq<Byte>, chosen: seq<bool>)
    requires |chosen| == |t| && forall i | 0 <= i < |t| :: chosen[i] <==> t[i] == 10 || t[i] == 0x7d
    ensures EscapesChosen(t, chosen) && Escaped(t) == Encoding(t, chosen)
  {
    if t != [] {
      EscapesNoMore(t[1..], chosen[1..]);
    }
  }

  /** Any bytes are such an encoding, or one with an escape at the end: the decoder refuses exactly the latter. */
  lemma {:induction false} EveryEncoding(s: seq<Byte>) returns (t: seq<Byte>, chosen: seq<bool>, cut: bool)
    ensures EscapesChosen(t, chosen) && s == Encoding(t, chosen) + if cut then [0x7d] else []
    ensures Unescaped(s) == if cut then None else Some(t)
  {
    hide Unescaped, Encoding, Invert;
    if s == [] || s == [0x7d] {
      t, chosen, cut := [], [], s != [];
      assert Encoding([], []) == [] by {
        NothingEncoded();
      }
    } else {
      var escaped := s[0] == 0x7d;
      var k := if escaped then 2 else 1;
      var b := if escaped then Invert(s[1]) else s[0];
      var t', chosen', cut' := EveryEncoding(s[k..]);
      t, chosen, cut := [b] + t', [escaped] + chosen', cut';
      EncodingStep(b, t', escaped, chosen');
      if escaped {
        InvertTwice(s[1]);
      }
      assert s == (if escaped then [0x7d, Invert(b)] else [b]) + s[k..];
    }
    EncodingIsDecoded(t, chosen);
    assert Encoding(t, chosen) + [] == Encoding(t, chosen);
  }

  lemma NothingEncoded()
    ensures Encoding([], []) == []
  {
  }

  /** The inner loop of the decoder: a run of escaped bytes; None is a bogus one. */
  method UnescapeRun(s: seq<Byte>, start: nat, data: array<Byte>, already: nat) returns (ok: bool, p: nat, filled: nat)
    requires start <= |s| && already <= data.Length
    modifies data
    ensures start <= p <= |s| && already <= filled <= data.Length && data[..already] == old(data[..already])
    ensures ok ==> (p < |s| ==> s[p] != ESCAPE) && (start < |s| && s[start] == ESCAPE ==> start < p)
    ensures ok ==> Unescaped(s[start..]) == Prepend(data[already..filled], Unescaped(s[p..]))
    ensures !ok ==> Unescaped(s[start..]).None? || |Unescaped(s[start..]).value| > data.Length - already
  {
    hide Unescaped;
    p, filled := start, already;
    ghost var done: seq<Byte> := [];
    PrependNothing(Unescaped(s[p..]));
    while p < |s| && s[p] == ESCAPE
      invariant start <= p <= |s| && already <= filled <= data.Length && data[..already] == old(data[..already])
      invariant start < |s| && s[start] == ESCAPE && p == start ==> filled == already
      invariant done == data[already..filled]
      invariant Unescaped(s[start..]) == Prepend(done, Unescaped(s[p..]))
      decreases |s| - p
    {
      UnescapedStep(s, p);
      p := p + 1;
      if p == |s| {
        return false, p, filled;
      }
      PrependTwice(done, [Invert(s[p])], Unescaped(s[p + 1..]));
      if filled + 1 > data.Length {
        return false, p, filled;
      }
      data[filled] := Invert(s[p]);
      done := done + [Invert(s[p])];
      filled := filled + 1;
      p := p + 1;
    }
    ok := true;
  }

  /** The decoder of a 705 event, for the size its parameters announce. */
  method Unescape(s: seq<Byte>, size: nat) returns (r: Option<seq<Byte>>)
    ensures r == if Unescaped(s).Some? && |Unescaped(s).value| == size then Unescaped(s) else None
  {
    hide Unescaped, Memchr;
    var data := new Byte[size];
    var p, filled := 0, 0;
    assert s[0..] == s;
    ghost var done: seq<Byte> := [];
    PrependNothing(Unescaped(s));
    while p < |s|
      invariant p <= |s| && filled <= size && done == data[..filled]
      invariant Unescaped(s) == Prepend(done, Unescaped(s[p..]))
    {
      var q := Memchr(s, ESCAPE, p);
      UnescapedCopies(s, p, q);
      PrependTwice(done, s[p..q], Unescaped(s[q..]));
      var piece := q - p;
      if filled + piece > size {
        return None;
      }
      forall i | 0 <= i < piece {
        data[filled + i] := s[p + i];
      }
      done := done + s[p..q];
      assert done == data[..filled + piece];
      filled := filled + piece;
      var ok, p', filled' := UnescapeRun(s, q, data, filled);
      if !ok {
        return None;
      }
      PrependTwice(done, data[filled..filled'], Unescaped(s[p'..]));
      assert data[..filled'] == data[..filled] + data[filled..filled'];
      done := done + data[filled..filled'];
      p, filled := p', filled';
    }
    UnescapedStep(s, p);
    assert done + [] == done;
    if filled != size {
      return None;
    }
    assert data[..] == data[..filled];
    r := Some(data[..]);
  }

  // ---------------------------------------------------------------- chunks

  datatype Track = Track(bits: nat, numChannels: nat, numSamples: nat, samples: seq<Byte>)

  /** Bytes of so many samples, as both sides compute them. */
  function SizeOf(numChannels: nat, numSamples: nat, bits: nat): nat {
    numChannels * numSamples * bits / 8
  }

  function SampleSize(track: Track): nat {
    track.numChannels * track.bits / 8
  }

  /** Samples of whole bytes, at most a chunk each, and as many bytes as announced. */
  predicate WellFormed(track: Track) {
    && track.numChannels * track.bits % 8 == 0
    && 1 <= SampleSize(track) <= MAX_CHUNK
    && |track.samples| == SizeOf(track.numChannels, track.numSamples, track.bits)
  }

  lemma SizeIsWhole(numChannels: nat, numSamples: nat, bits: nat)
    requires numChannels * bits % 8 == 0
    ensures SizeOf(numChannels, numSamples, bits) == numSamples * (numChannels * bits / 8)
  {
    var ss := numChannels * bits / 8;
    assert numChannels * numSamples * bits == numSamples * (numChannels * bits);
    assert numSamples * (numChannels * bits) == 8 * (numSamples * ss);
  }

  lemma ChunkFits(n: nat, ss: nat)
    requires 0 < ss && n <= MAX_CHUNK / ss
    ensures n * ss <= MAX_CHUNK
  {
    assert n * ss <= MAX_CHUNK / ss * ss;
  }

  lemma ChunkOfNothing(ss: nat)
    requires ss > 0
    ensures MAX_CHUNK / ss == 0 <==> ss > MAX_CHUNK
  {
    if ss <= MAX_CHUNK {
      assert 1 * ss <= MAX_CHUNK;
    }
  }

  /** Where sample number n of a track begins. */
  function Place(track: Track, n: nat): nat {
    n * SampleSize(track)
  }

  lemma PlacesAreOrdered(track: Track, m: nat, n: nat)
    requires m <= n
    ensures Place(track, m) <= Place(track, n) && Place(track, n) == Place(track, m) + Place(track, n - m)
  {
  }

  lemma TrackEnds(track: Track)
    requires WellFormed(track)
    ensures Place(track, 0) == 0 && Place(track, track.numSamples) == |track.samples|
    ensures 1 <= SampleSize(track) <= MAX_CHUNK && MAX_CHUNK / SampleSize(track) >= 1
  {
    SizeIsWhole(track.numChannels, track.numSamples, track.bits);
    ChunkOfNothing(SampleSize(track));
  }

  /** One 705 event: the samples it announces and its escaped bytes. */
  datatype Frame = Frame(numSamples: nat, wire: seq<Byte>)

  /** What the server makes of an event. */
  function Payload(f: Frame, track: Track): Option<seq<Byte>> {
    var r := Unescaped(f.wire);
    if r.Some? && |r.value| == SizeOf(track.numChannels, f.numSamples, track.bits) then r else None
  }

  function Payloads(frames: seq<Frame>, track: Track): seq<Byte> {
    if frames == [] then []
    else
      var n := |frames| - 1;
      Payloads(frames[..n], track) + (if Payload(frames[n], track).Some? then Payload(frames[n], track).value else [])
  }

  function TotalSamples(frames: seq<Frame>): nat {
    if frames == [] then 0 else TotalSamples(frames[..|frames| - 1]) + frames[|frames| - 1].numSamples
  }

  lemma OneMore(frames: seq<Frame>, f: Frame, track: Track)
    requires Payload(f, track).Some?
    ensures Payloads(frames + [f], track) == Payloads(frames, track) + Payload(f, track).value
    ensures TotalSamples(frames + [f]) == TotalSamples(frames) + f.numSamples
  {
    assert (frames + [f])[..|frames|] == frames;
  }

  /** An event is one line, is accepted, and is small. */
  predicate GoodFrame(f: Frame, track: Track) {
    LF !in f.wire && f.numSamples > 0 && Payload(f, track).Some? && |Payload(f, track).value| <= MAX_CHUNK
  }

  lemma FrameIsGood(raw: seq<Byte>, n: nat, track: Track)
    requires WellFormed(track) && 0 < n <= MAX_CHUNK / SampleSize(track) && |raw| == Place(track, n)
    ensures GoodFrame(Frame(n, Escaped(raw)), track) && Payload(Frame(n, Escaped(raw)), track) == Some(raw)
  {
    SizeIsWhole(track.numChannels, n, track.bits);
    ChunkFits(n, SampleSize(track));
    UnescapedEscaped(raw);
    EscapedIsOneLine(raw);
  }

  /** How many samples are sent after n turns of the loop without a stop, at `ss` bytes a sample. */
  function Sent(numSamples: nat, ss: nat, n: nat): (p: nat)
    requires ss > 0
    ensures p <= numSamples
  {
    if n == 0 then 0
    else
      var p := Sent(numSamples, ss, n - 1);
      p + Min(MAX_CHUNK / ss, numSamples - p)
  }

  lemma {:induction false} SentGrows(numSamples: nat, ss: nat, n: nat)
    requires 0 < ss
    ensures if ss <= MAX_CHUNK then Sent(numSamples, ss, n) >= Min(n, numSamples) else Sent(numSamples, ss, n) == 0
  {
    ChunkOfNothing(ss);
    if n > 0 {
      SentGrows(numSamples, ss, n - 1);
    }
  }

  /** Left alone the loop ends exactly if there are no samples or a sample fits a chunk; otherwise no turn sends
      anything. */
  lemma LoopEnds(numSamples: nat, ss: nat)
    requires ss > 0
    ensures (exists n :: Sent(numSamples, ss, n) == numSamples) <==> numSamples == 0 || ss <= 10000
    ensures ss > 10000 ==> forall n :: Sent(numSamples, ss, n) == 0
  {
    forall n: nat
      ensures if ss <= MAX_CHUNK then Sent(numSamples, ss, n) >= Min(n, numSamples) else Sent(numSamples, ss, n) == 0
    {
      SentGrows(numSamples, ss, n);
    }
    assert Sent(numSamples, ss, 0) == 0;
    assert ss <= MAX_CHUNK ==> Sent(numSamples, ss, numSamples) == numSamples;
  }

  /** module_tts_output_server; `stops` is what module_should_stop reads at each turn of the loop. The server is given
      the bytes of the track in order, and all of them unless a stop was seen; then whole samples of a prefix. */
  method OutputServer(track: Track, stops: seq<bool>) returns (frames: seq<Frame>)
    requires WellFormed(track)
    ensures forall f | f in frames :: GoodFrame(f, track)
    ensures Place(track, TotalSamples(frames)) <= |track.samples|
    ensures Payloads(frames, track) == track.samples[..Place(track, TotalSamples(frames))]
    ensures if |frames| < |stops| && stops[|frames|] then TotalSamples(frames) <= track.numSamples
            else TotalSamples(frames) == track.numSamples && Place(track, track.numSamples) == |track.samples|
    ensures forall i | 0 <= i < |frames| && i < |stops| :: !stops[i]
    ensures TotalSamples(frames) == Sent(track.numSamples, SampleSize(track), |frames|)
  {
    hide Payload, Unescaped, Escaped, WellFormed, SampleSize, SizeOf, Place, GoodFrame;
    TrackEnds(track);
    frames := [];
    var ss := SampleSize(track);
    var samplePos := 0;
    while samplePos < track.numSamples
      invariant TotalSamples(frames) == samplePos == Sent(track.numSamples, ss, |frames|)
      invariant Place(track, samplePos) <= |track.samples|
      invariant Payloads(frames, track) == track.samples[..Place(track, samplePos)]
      invariant forall f | f in frames :: GoodFrame(f, track)
      invariant forall i | 0 <= i < |frames| && i < |stops| :: !stops[i]
      decreases track.numSamples - samplePos
    {
      if |frames| < |stops| && stops[|frames|] {
        break;
      }
      var numSamples := MAX_CHUNK / ss;
      if numSamples > track.numSamples - samplePos {
        numSamples := track.numSamples - samplePos;
      }
      PlacesAreOrdered(track, samplePos, samplePos + numSamples);
      PlacesAreOrdered(track, samplePos + numSamples, track.numSamples);
      var raw := track.samples[Place(track, samplePos)..Place(track, samplePos + numSamples)];
      var wire := Escape(raw);
      FrameIsGood(raw, numSamples, track);
      OneMore(frames, Frame(numSamples, wire), track);
      assert track.samples[..Place(track, samplePos)] + raw == track.samples[..Place(track, samplePos + numSamples)];
      frames := frames + [Frame(numSamples, wire)];
      samplePos := samplePos + numSamples;
    }
  }

}
