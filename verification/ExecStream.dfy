/**
 Docker's multiplexed exec stream (retinue/container.py): the decoding loop, proved against a recursive reading
 of the bytes that inverts the framing and only ever appends. Bytes, before they are decoded as text.
 */
module ExecStream {
  type Byte = b: int | 0 <= b < 256 witness 0

  datatype Streams = Streams(stdout: seq<Byte>, stderr: seq<Byte>)

  const NOTHING := Streams([], [])

  function BigEndian(b: seq<Byte>): nat
    requires |b| == 4
  {
    ((b[0] as int * 256 + b[1] as int) * 256 + b[2] as int) * 256 + b[3] as int
  }

  predicate Complete(raw: seq<Byte>) {
    |raw| >= 8 && 8 + BigEndian(raw[4..8]) <= |raw|
  }

  /** What has been read so far, then the rest. */
  function Then(first: Streams, rest: Streams): Streams {
    Streams(first.stdout + rest.stdout, first.stderr + rest.stderr)
  }

  /** Stream 2 is stderr, anything else stdout. */
  function Payload(stream: Byte, payload: seq<Byte>): Streams {
    if stream == 2 then Streams([], payload) else Streams(payload, [])
  }

  lemma ThenAssociates(a: Streams, b: Streams, c: Streams)
    ensures Then(Then(a, b), c) == Then(a, Then(b, c))
  {
    assert a.stdout + b.stdout + c.stdout == a.stdout + (b.stdout + c.stdout);
    assert a.stderr + b.stderr + c.stderr == a.stderr + (b.stderr + c.stderr);
  }

  lemma ThenNothing(a: Streams)
    ensures Then(a, NOTHING) == a && Then(NOTHING, a) == a
  {
    assert a.stdout + [] == a.stdout && [] + a.stdout == a.stdout && a.stderr + [] == a.stderr
      && [] + a.stderr == a.stderr;
  }

  /** Whole frames from the front; an incomplete one ends the reading. */
  function Demux(raw: seq<Byte>): Streams
    decreases |raw|
  {
    if !Complete(raw) then NOTHING
    else
      var end := 8 + BigEndian(raw[4..8]);
      Then(Payload(raw[0], raw[8..end]), Demux(raw[end..]))
  }

  lemma DemuxAt(raw: seq<Byte>, offset: nat)
    requires offset + 8 <= |raw|
    ensures var end := offset + 8 + BigEndian(raw[offset + 4..offset + 8]);
      Demux(raw[offset..]) ==
        if end > |raw| then NOTHING else Then(Payload(raw[offset], raw[offset + 8..end]), Demux(raw[end..]))
  {
    var rest := raw[offset..];
    var size := BigEndian(raw[offset + 4..offset + 8]);
    assert rest[4..8] == raw[offset + 4..offset + 8] && rest[0] == raw[offset];
    if offset + 8 + size <= |raw| {
      assert rest[8..8 + size] == raw[offset + 8..offset + 8 + size];
      assert rest[8 + size..] == raw[offset + 8 + size..];
    }
  }

  method DemuxStream(raw: seq<Byte>) returns (stdout: seq<Byte>, stderr: seq<Byte>)
    ensures Streams(stdout, stderr) == Demux(raw)
  {
    stdout, stderr := [], [];
    var offset := 0;
    ghost var whole, left := Demux(raw), Demux(raw);
    assert raw[0..] == raw;
    ThenNothing(whole);
    while offset + 8 <= |raw|
      invariant 0 <= offset <= |raw|
      invariant left == Demux(raw[offset..]) && whole == Then(Streams(stdout, stderr), left)
      decreases |raw| - offset
    {
      DemuxAt(raw, offset);
      var streamId := raw[offset];
      var size := BigEndian(raw[offset + 4..offset + 8]);
      var start := offset + 8;
      var end := start + size;
      if end > |raw| { break; }
      left := Demux(raw[end..]);
      ThenAssociates(Streams(stdout, stderr), Payload(streamId, raw[start..end]), left);
      ThenNothing(Streams(stdout, stderr));
      if streamId == 2 { stderr := stderr + raw[start..end]; } else { stdout := stdout + raw[start..end]; }
      offset := end;
    }
    ThenNothing(Streams(stdout, stderr));
  }

  /** One frame as the daemon writes it; the three padding bytes are not looked at. */
  datatype Frame = Frame(stream: Byte, padding: seq<Byte>, payload: seq<Byte>)

  predicate WellFormed(f: Frame) {
    |f.padding| == 3 && |f.payload| < 0x1_0000_0000
  }

  function Big4(n: nat): (b: seq<Byte>)
    requires n < 0x1_0000_0000
    ensures |b| == 4 && BigEndian(b) == n
  {
    var n1 := n / 256;
    var n2 := n1 / 256;
    [n2 / 256, n2 % 256, n1 % 256, n % 256]
  }

  function EncodeFrame(f: Frame): seq<Byte>
    requires WellFormed(f)
  {
    [f.stream] + f.padding + Big4(|f.payload|) + f.payload
  }

  ghost predicate AllWellFormed(fs: seq<Frame>) {
    forall f | f in fs :: WellFormed(f)
  }

  function EncodeFrames(fs: seq<Frame>): seq<Byte>
    requires AllWellFormed(fs)
  {
    if fs == [] then [] else EncodeFrame(fs[0]) + EncodeFrames(fs[1..])
  }

  /** What the frames carry: the payloads of each stream, in order. */
  function Carried(fs: seq<Frame>): Streams {
    if fs == [] then NOTHING else Then(Payload(fs[0].stream, fs[0].payload), Carried(fs[1..]))
  }

  /** Stream by stream, `Carried` is the concatenation of that stream's payloads. */
  function PayloadsOf(fs: seq<Frame>, stderr: bool): seq<seq<Byte>> {
    if fs == [] then []
    else if (fs[0].stream == 2) == stderr then [fs[0].payload] + PayloadsOf(fs[1..], stderr)
    else PayloadsOf(fs[1..], stderr)
  }

  function Concat(parts: seq<seq<Byte>>): seq<Byte> {
    if parts == [] then [] else parts[0] + Concat(parts[1..])
  }

  lemma {:induction false} CarriedIsConcatenation(fs: seq<Frame>)
    ensures Carried(fs) == Streams(Concat(PayloadsOf(fs, false)), Concat(PayloadsOf(fs, true)))
  {
    if fs != [] {
      CarriedIsConcatenation(fs[1..]);
      var p := fs[0].payload;
      var rest := Carried(fs[1..]);
      assert [] + rest.stdout == rest.stdout && [] + rest.stderr == rest.stderr;
      assert ([p] + PayloadsOf(fs[1..], true))[1..] == PayloadsOf(fs[1..], true);
      assert ([p] + PayloadsOf(fs[1..], false))[1..] == PayloadsOf(fs[1..], false);
    }
  }

  lemma FrameThenRest(f: Frame, rest: seq<Byte>)
    requires WellFormed(f)
    ensures var raw := EncodeFrame(f) + rest;
      && Complete(raw) && raw[0] == f.stream && 8 + BigEndian(raw[4..8]) == 8 + |f.payload|
      && raw[8..8 + |f.payload|] == f.payload && raw[8 + |f.payload|..] == rest
  {
    var raw := EncodeFrame(f) + rest;
    assert raw[4..8] == Big4(|f.payload|);
  }

  lemma Assoc(a: seq<Byte>, b: seq<Byte>, c: seq<Byte>)
    ensures a + b + c == a + (b + c)
  {
  }

  lemma CutBehind(a: seq<Byte>, b: seq<Byte>, n: nat)
    requires |a| <= n <= |a + b|
    ensures (a + b)[..n] == a + b[..n - |a|]
  {
  }

  lemma CutWithin(a: seq<Byte>, b: seq<Byte>, n: nat)
    requires n <= |a|
    ensures (a + b)[..n] == a[..n]
  {
  }

  lemma OneMoreFrame(f: Frame, fs: seq<Frame>, x: seq<Byte>)
    requires WellFormed(f) && Demux(x) == Carried(fs)
    ensures Demux(EncodeFrame(f) + x) == Carried([f] + fs)
  {
    FrameThenRest(f, x);
    assert ([f] + fs)[1..] == fs;
  }

  /**
   Demultiplexing inverts framing: whole frames give exactly the per-stream concatenations, and whatever
   incomplete bytes follow them change nothing.
   */
  lemma {:induction false} DemuxInvertsFraming(fs: seq<Frame>, rest: seq<Byte>)
    requires AllWellFormed(fs) && !Complete(rest)
    ensures Demux(EncodeFrames(fs) + rest) == Carried(fs)
    decreases |fs|
  {
    if fs == [] {
      assert EncodeFrames(fs) + rest == rest;
    } else {
      DemuxInvertsFraming(fs[1..], rest);
      assert fs[0] in fs;
      OneMoreFrame(fs[0], fs[1..], EncodeFrames(fs[1..]) + rest);
      Assoc(EncodeFrame(fs[0]), EncodeFrames(fs[1..]), rest);
      assert [fs[0]] + fs[1..] == fs;
    }
  }

  /** Every byte string is whole frames followed by an incomplete rest, so the above describes all inputs. */
  lemma {:induction false} EveryStreamIsFrames(raw: seq<Byte>) returns (fs: seq<Frame>, rest: seq<Byte>)
    ensures AllWellFormed(fs) && !Complete(rest) && raw == EncodeFrames(fs) + rest
    decreases |raw|
  {
    if !Complete(raw) {
      fs, rest := [], raw;
    } else {
      var end := 8 + BigEndian(raw[4..8]);
      var f := Frame(raw[0], raw[1..4], raw[8..end]);
      var more;
      more, rest := EveryStreamIsFrames(raw[end..]);
      fs := [f] + more;
      Big4Unique(raw[4..8]);
      assert raw == EncodeFrame(f) + raw[end..];
    }
  }

  lemma LowByte(high: int, low: int)
    requires 0 <= low < 256
    ensures (high * 256 + low) / 256 == high && (high * 256 + low) % 256 == low
  {
  }

  lemma Big4Unique(b: seq<Byte>)
    requires |b| == 4
    ensures BigEndian(b) < 0x1_0000_0000 && Big4(BigEndian(b)) == b
  {
    LowByte((b[0] as int * 256 + b[1] as int) * 256 + b[2] as int, b[3] as int);
    LowByte(b[0] as int * 256 + b[1] as int, b[2] as int);
    LowByte(b[0] as int, b[1] as int);
  }

  /** A cut inside a frame leaves an incomplete rest. */
  lemma CutFrameIsIncomplete(f: Frame, n: nat)
    requires WellFormed(f) && n < |EncodeFrame(f)|
    ensures !Complete(EncodeFrame(f)[..n])
  {
    var whole := EncodeFrame(f);
    assert whole[4..8] == Big4(|f.payload|);
    if n >= 8 { assert whole[..n][4..8] == whole[4..8]; }
  }

  /** How many of the frames are whole within the first `n` bytes. */
  function WholeFrames(fs: seq<Frame>, n: nat): (k: nat)
    requires AllWellFormed(fs)
    ensures k <= |fs|
  {
    if fs == [] then 0
    else
      assert fs[0] in fs;
      if n < |EncodeFrame(fs[0])| then 0 else 1 + WholeFrames(fs[1..], n - |EncodeFrame(fs[0])|)
  }

  /** A stream cut anywhere yields exactly what its longest whole-frame prefix carries. */
  lemma {:induction false} TruncationKeepsWholeFrames(fs: seq<Frame>, n: nat)
    requires AllWellFormed(fs) && n <= |EncodeFrames(fs)|
    ensures var k := WholeFrames(fs, n);
      Demux(EncodeFrames(fs)[..n]) == Carried(fs[..k])
    decreases |fs|
  {
    if fs != [] {
      assert fs[0] in fs;
      var first, later := EncodeFrame(fs[0]), EncodeFrames(fs[1..]);
      if n < |first| {
        CutWithin(first, later, n);
        CutFrameIsIncomplete(fs[0], n);
      } else {
        var k := WholeFrames(fs[1..], n - |first|);
        TruncationKeepsWholeFrames(fs[1..], n - |first|);
        CutBehind(first, later, n);
        assert WholeFrames(fs, n) == k + 1;
        OneMoreFrame(fs[0], fs[1..][..k], later[..n - |first|]);
        assert fs[..k + 1] == [fs[0]] + fs[1..][..k];
      }
    }
  }

  lemma StillThere(raw: seq<Byte>, more: seq<Byte>)
    requires Complete(raw)
    ensures var end := 8 + BigEndian(raw[4..8]);
      Demux(raw + more) == Then(Payload(raw[0], raw[8..end]), Demux(raw[end..] + more))
  {
    var end := 8 + BigEndian(raw[4..8]);
    assert (raw + more)[4..8] == raw[4..8] && (raw + more)[8..end] == raw[8..end];
    assert (raw + more)[end..] == raw[end..] + more;
  }

  predicate Extends(a: Streams, b: Streams) {
    a.stdout <= b.stdout && a.stderr <= b.stderr
  }

  lemma ThenExtends(a: Streams, b: Streams, c: Streams)
    requires Extends(b, c)
    ensures Extends(Then(a, b), Then(a, c))
  {
  }

  /** More input only ever appends. */
  lemma {:induction false} DemuxAppends(raw: seq<Byte>, more: seq<Byte>)
    ensures Extends(Demux(raw), Demux(raw + more))
    decreases |raw|
  {
    if Complete(raw) {
      var end := 8 + BigEndian(raw[4..8]);
      DemuxAppends(raw[end..], more);
      StillThere(raw, more);
      ThenExtends(Payload(raw[0], raw[8..end]), Demux(raw[end..]), Demux(raw[end..] + more));
    }
  }
}
