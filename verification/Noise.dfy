/** Noise in front of a stream: how much of it the decoder can stand. The advance over a match is
    counted from the read index, so noise is never dropped but replaced by the tail of the frame. */
module Noise {
  import opened Bytes
  import opened TcpBuffers
  import opened ProtobufFrames
  import opened ProtobufCoder
  import opened DecodeLoops
  import opened StreamDecoding
  import opened IncompleteFrames

  /** Decode returns, with all messages and nothing else. */
  predicate Recovers(l: Layout, ms: seq<Message>)
    requires l.Valid()
  {
    DecodeRun(l).outcome == Finished && DecodeRun(l).messages == ReceivedAll(ms)
  }

  /** Resynchronisation: noise of up to six bytes without a start marker costs no message and is
      never cleared; as many bytes as it had stay unread for ever. */
  lemma Resynchronises(l: Layout, noise: Bytes, ms: seq<Message>)
    requires Holds(l, noise, ms, []) && AllEncodable(ms)
    requires START !in noise && |noise| <= 6 && l.write < |l.mem|
    ensures Recovers(l, ms) && |DecodeRun(l).layout.Unread()| == |noise|
  {
    hide DecodeRun, Stream;
    MarkerFreeIsInert(noise);
    DecodeStream(l, noise, ms, []);
  }

  /* ----- A given noise and a given stream ----- */

  /** Before each frame, the scan gets past the g bytes in front of it where they lie: at first the
      noise, then what has taken its place. */
  predicate Passed(l: Layout, g: nat, ms: seq<Message>)
    requires l.Valid()
    decreases |ms|
  {
    ms == []
    || (&& l.read + g + PkLen(ms[0]) <= l.write
        && (forall i :: l.read <= i < l.read + g ==> ProbeAt(l.mem, i, l.write) == Pass)
        && Passed(MoveRead(l, PkLen(ms[0])), g, ms[1..]))
  }

  /** Noise of any length that the scan gets past before every frame: all messages are returned and
      as many bytes as it had stay unread, if and only if the last of them are quiet. */
  lemma PassedNoiseDecides(l: Layout, d: Bytes, ms: seq<Message>)
    requires Holds(l, d, ms, []) && AllEncodable(ms) && ms != [] && l.write < |l.mem| && Passed(l, |d|, ms)
    ensures var e := SkipFrames(l, ms);
            (Recovers(l, ms) && |DecodeRun(l).layout.Unread()| == |d|) <==> Quiet(e.mem, e.read, e.write)
  {
    hide DecodeRun, Quiet, SkipFrames, Passed, Stream, Encodable;
    PassedNoiseIsKept(l, d, ms);
    var e := SkipFrames(l, ms);
    UntouchedIffQuiet(e);
    if DecodeRun(l).outcome == Finished && |DecodeRun(l).layout.Unread()| == |d| {
      SameLengthIsSame(e);
      FinishedIsQuiet(l);
    }
  }

  lemma {:induction false} PassedNoiseIsKept(l: Layout, d: Bytes, ms: seq<Message>)
    requires Holds(l, d, ms, []) && AllEncodable(ms) && l.write < |l.mem| && Passed(l, |d|, ms)
    ensures var e := SkipFrames(l, ms);
            && DecodeRun(l) == Prepend(ReceivedAll(ms), DecodeRun(e))
            && |e.Unread()| == |d|
            && (ms != [] ==> e.Tidy())
    decreases |ms|
  {
    hide DecodeRun, DecodeRound, ScanFrom, ParseFrame, MoveRead, Frame, Received, Stream, Encodable, ProbeAt;
    StreamCons(ms);
    if ms != [] {
      var n, f, s := PkLen(ms[0]), Frame(ms[0]), Stream(ms[1..]);
      assert d + (f + s) + [] == d + (f + s);
      FrameIsFoundBehind(l, d, ms[0], s);
      var next := MoveRead(l, n);
      assert l.mem[l.read + n..l.write] == l.Unread()[n..];
      assert (d + (f + s))[n..] == (d + f)[n..] + s + [];
      PassedNoiseIsKept(next, (d + f)[n..], ms[1..]);
      PrependTwice([Received(ms[0])], ReceivedAll(ms[1..]), DecodeRun(SkipFrames(next, ms[1..])));
    }
  }

  lemma FrameIsFoundBehind(l: Layout, d: Bytes, m: Message, rest: Bytes)
    requires l.Valid() && Encodable(m) && l.Unread() == d + (Frame(m) + rest) && l.write < |l.mem|
    requires forall i :: l.read <= i < l.read + |d| ==> ProbeAt(l.mem, i, l.write) == Pass
    ensures DecodeRun(l) == Prepend([Received(m)], DecodeRun(MoveRead(l, PkLen(m))))
  {
    hide DecodeRun, DecodeRound, ScanFrom, ParseFrame, MoveRead, Frame, Received, Fits, Inert;
    var at := l.read + |d|;
    HasSplit(l.mem, l.read, d, Frame(m) + rest);
    HasSplit(l.mem, at, Frame(m), rest);
    ScanPasses(l.mem, l.read, at, l.write);
    MarkerFreeIsInert([]);
    ScanFindsFrame(l.mem, at, [], m, l.write);
    ParseRoundTrip(l.mem, at, m);
    RoundOnMatch(l, at, PkLen(m), Received(m));
    RunUnfolds(l);
  }

  /** Noise without a marker in front of one message, whatever its length: the first round passes it,
      so that the bytes left by that round decide. */
  lemma NoiseDecides(l: Layout, noise: Bytes, m: Message)
    requires Holds(l, noise, [m], []) && Encodable(m) && START !in noise && l.write < |l.mem|
    ensures CanMoveRead(l, PkLen(m))
    ensures var e := MoveRead(l, PkLen(m));
            (Recovers(l, [m]) && |DecodeRun(l).layout.Unread()| == |noise|) <==> Quiet(e.mem, e.read, e.write)
  {
    hide DecodeRun, Quiet, Stream, MoveRead, ProbeAt;
    StreamCons([m]);
    StreamCons([]);
    FirstRound(l, noise, m);
    var e := MoveRead(l, PkLen(m));
    assert noise + Stream([m]) + [] == noise + Stream([m]);
    HasSplit(l.mem, l.read, noise, Stream([m]));
    forall i | l.read <= i < l.read + |noise| ensures ProbeAt(l.mem, i, l.write) == Pass {
      assert l.mem[i] == noise[i - l.read];
      NoMarkerPasses(l.mem, i, l.write);
    }
    assert Passed(e, |noise|, []);
    assert [m][1..] == [];
    PassedNoiseDecides(l, noise, [m]);
    assert SkipFrames(l, [m]) == SkipFrames(e, []) == e;
  }

  lemma NoMarkerPasses(mem: Bytes, i: nat, write: nat)
    requires i < write <= |mem| && mem[i] != START
    ensures ProbeAt(mem, i, write) == Pass
  {
  }

  /* ----- How much is harmless to every stream ----- */

  /** The tail of the frame that takes the place of g bytes of noise: bytes without a marker, of
      which the last is an end marker if there are any, a marker, and a length word of zero. */
  predicate Spoils(m: Message, g: nat)
    requires Framable(m) && 7 <= g < PkLen(m)
  {
    var f := Frame(m);
    && START !in f[PkLen(m) - g..PkLen(m) - 7]
    && f[PkLen(m) - 8] == END
    && f[PkLen(m) - 7..] == [START, 0, 0, 0, 0, 1, END]
  }

  /** Seven bytes or more, but fewer than the frame has: behind a message with such a tail decode
      does not finish. */
  lemma DriftedTailFails(l: Layout, noise: Bytes, m: Message)
    requires Holds(l, noise, [m], []) && Encodable(m) && START !in noise && l.write < |l.mem|
    requires 7 <= |noise| < PkLen(m) && Spoils(m, |noise|)
    ensures DecodeRun(l).outcome == NoProgress || DecodeRun(l).outcome == Faulted
    ensures 7 < |noise| ==> DecodeRun(l).outcome == NoProgress
  {
    hide DecodeRun, DecodeRound, Frame, MoveRead, Fits, Received, ScanFrom, ParseFrame, Stream;
    var n, g, f := PkLen(m), |noise|, Frame(m);
    FirstRound(l, noise, m);
    var left := MoveRead(l, n);
    var t := f[n - g..n - 7];
    StreamCons([m]);
    StreamCons([]);
    TailOfStream(noise, f);
    assert f[n - g..] == t + f[n - 7..];
    EndsBefore(l, noise, f, left);
    BehindTail(left, t);
    ZeroLengthWord(left, t);
  }

  /** The first round takes the frame and drops as many bytes as it has from the front. */
  lemma FirstRound(l: Layout, noise: Bytes, m: Message)
    requires Holds(l, noise, [m], []) && Encodable(m) && START !in noise && l.write < |l.mem|
    ensures CanMoveRead(l, PkLen(m)) && l.read + PkLen(m) < |l.mem|
    ensures DecodeRun(l) == Prepend([Received(m)], DecodeRun(MoveRead(l, PkLen(m))))
    ensures PkLen(m) <= |l.Unread()| && MoveRead(l, PkLen(m)).Unread() == l.Unread()[PkLen(m)..]
  {
    hide DecodeRun, DecodeRound, Frame, MoveRead, Fits, Received, ScanFrom, ParseFrame, Stream, Inert;
    MarkerFreeIsInert(noise);
    FirstFrameMatches(l, noise, [m], []);
    RoundOnMatch(l, l.read + |noise|, PkLen(m), Received(m));
    RunUnfolds(l);
    assert l.mem[l.read + PkLen(m)..l.write] == l.Unread()[PkLen(m)..];
  }

  lemma TailOfStream(noise: Bytes, f: Bytes)
    requires |noise| <= |f|
    ensures (noise + (f + []) + [])[|f|..] == f[|f| - |noise|..]
  {
  }

  /** The byte in front of the last seven is still there, unless compaction has put those first. */
  lemma EndsBefore(l: Layout, noise: Bytes, f: Bytes, left: Layout)
    requires l.Valid() && l.Unread() == noise + (f + []) + [] && l.write < |l.mem| && 7 <= |noise| < |f|
    requires left == MoveRead(l, |f|) && f[|f| - 8] == END
    ensures var at := left.read + |noise| - 7; at == 0 || left.mem[at - 1] == END
  {
    var g, n := |noise|, |f|;
    assert l.mem[l.read + n + g - 8] == l.Unread()[n + g - 8] == f[n - 8];
    if 7 < g {
      StillInside(l, n, left, g - 8);
    }
  }

  lemma StillInside(l: Layout, n: nat, left: Layout, k: nat)
    requires l.Valid() && n + k < |l.Unread()| && l.read + n < |l.mem| && left == MoveRead(l, n)
    ensures left.mem[left.read + k] == l.Unread()[n + k]
  {
    hide MoveRead;
    assert left.mem[left.read + k] == left.Unread()[k] == l.mem[l.read + n..l.write][k];
  }

  lemma BehindTail(l: Layout, t: Bytes)
    requires l.Valid() && l.Unread() == t + [START, 0, 0, 0, 0, 1, END]
    ensures t <= l.Unread()
    ensures var at := l.read + |t|;
            && at + 7 == l.write
            && l.mem[at] == START && l.mem[at + 1..at + 5] == Zeros(4)
  {
    var at := l.read + |t|;
    var s := [START, 0, 0, 0, 0, 1, END];
    HasSplit(l.mem, l.read, t, s);
    HasPart(l.mem, at, s, 1, 5);
    assert s[1..5] == Zeros(4);
    assert l.mem[at] == l.mem[at..at + 7][0];
  }

  /** At least as many bytes as the frame has: the frame is still complete after the first round, and
      its message is returned again. */
  lemma LongNoiseRepeats(l: Layout, noise: Bytes, m: Message)
    requires Holds(l, noise, [m], []) && Encodable(m) && START !in noise && l.write < |l.mem|
    requires PkLen(m) <= |noise|
    ensures |DecodeRun(l).messages| >= 2
  {
    hide DecodeRun, DecodeRound, Frame, MoveRead, Fits, Received, ScanFrom, ParseFrame, Stream;
    var n := PkLen(m);
    FirstRound(l, noise, m);
    var next := MoveRead(l, n);
    assert (noise + Stream([m]) + [])[n..] == noise[n..] + Stream([m]) + [];
    FirstRound(next, noise[n..], m);
  }

  /** An ordinary message: no id, method, or error, and the payload 3, 2, 0. */
  const SPOILER: Message := Message([], [], 0, [], [3, 2, 0], 0, 0, 0, 0, 0, false)

  /** Its frame: h has no marker, and is followed by the payload, the checksum and the end marker. */
  lemma SpoilerFrame() returns (h: Bytes)
    ensures Encodable(SPOILER) && PkLen(SPOILER) == 38
    ensures START !in h && |h| == 29 && Frame(SPOILER) == [START] + h + [END, START, 0, 0, 0, 0, 1, END]
  {
    hide Field, Header;
    SpoilerParts();
    h := [0, 0, 0, 38] + Field(DEFAULT_ID) + Field([]) + EncodeInt32(0) + Field([]);
    assert SPOILER.pbData + TRAILER == [END, START, 0, 0, 0, 0, 1, END];
    assert Header(SPOILER) == [START] + [0, 0, 0, 38];
    assert Frame(SPOILER) == [START] + h + (SPOILER.pbData + TRAILER);
  }

  lemma SpoilerParts()
    ensures Header(SPOILER) == [START, 0, 0, 0, 38]
    ensures Field(DEFAULT_ID) == [0, 0, 0, 9, 49, 50, 51, 52, 53, 54, 55, 56, 57]
    ensures Field([]) == [0, 0, 0, 0] == EncodeInt32(0)
    ensures TRAILER == [0, 0, 0, 1, END]
  {
    assert |DEFAULT_ID| == 9 && PkLen(SPOILER) == 38;
  }

  lemma SpoilerSpoils(g: nat)
    requires 7 <= g < 38
    ensures Encodable(SPOILER) && PkLen(SPOILER) == 38 && Spoils(SPOILER, g)
  {
    hide Frame;
    var h := SpoilerFrame();
    TailHasNoMarker(Frame(SPOILER), h, g);
  }

  lemma TailHasNoMarker(f: Bytes, h: Bytes, g: nat)
    requires 7 <= g < 38 && START !in h && |h| == 29 && f == [START] + h + [END, START, 0, 0, 0, 0, 1, END]
    ensures START !in f[38 - g..31] && f[30] == END && f[31..] == [START, 0, 0, 0, 0, 1, END]
  {
    assert forall i :: 1 <= i < 30 ==> f[i] == h[i - 1];
  }

  /** Behind every noise of g bytes without a start marker, in every buffer with a byte free, every
      stream is decoded in full. */
  ghost predicate Harmless(g: nat) {
    forall l, noise, ms ::
      Holds(l, noise, ms, []) && AllEncodable(ms) && START !in noise && |noise| == g && l.write < |l.mem|
      ==> Recovers(l, ms)
  }

  /** Six bytes is the limit, for every amount of noise that fits a buffer together with one short
      frame; from seven on one ordinary message is enough to show it. */
  lemma NoiseLimit(g: nat)
    requires g + 39 <= INT_MAX
    ensures Harmless(g) <==> g <= 6
  {
    hide Recovers, DecodeRun, Frame, Stream;
    if g <= 6 {
      forall l, noise, ms
        | Holds(l, noise, ms, []) && AllEncodable(ms) && START !in noise && |noise| == g && l.write < |l.mem|
        ensures Recovers(l, ms)
      {
        Resynchronises(l, noise, ms);
      }
    } else {
      var _ := SpoilerFrame();
      var f, noise := Frame(SPOILER), Zeros(g);
      var l := Layout(noise + f + [0], 0, g + 38);
      StreamCons([SPOILER]);
      StreamCons([]);
      assert l.Unread() == noise + (f + []) + [];
      assert Holds(l, noise, [SPOILER], []);
      SpoilerIsLost(l, noise);
    }
  }

  lemma SpoilerIsLost(l: Layout, noise: Bytes)
    requires Encodable(SPOILER) && Holds(l, noise, [SPOILER], [])
    requires START !in noise && 7 <= |noise| && l.write < |l.mem|
    ensures !Recovers(l, [SPOILER])
  {
    hide DecodeRun, Frame, Stream;
    var _ := SpoilerFrame();
    if |noise| < 38 {
      SpoilerSpoils(|noise|);
      DriftedTailFails(l, noise, SPOILER);
    } else {
      LongNoiseRepeats(l, noise, SPOILER);
    }
  }
}
