/** What decoding does with streams of encoded frames: the loop returns their messages and then
    goes on with what is behind them, and the whole-stream round trip, with its exact failing
    case. */
module StreamDecoding {
  import opened Bytes
  import opened TcpBuffers
  import opened ProtobufFrames
  import opened ProtobufCoder

  /* ----- Bytes the scan walks over ----- */

  /** Every start marker is followed by the length word 1, which makes the marker its own end. */
  predicate Inert(d: Bytes) {
    forall k :: 0 <= k < |d| && d[k] == START ==> k + 5 <= |d| && DecodeInt32(d[k + 1..k + 5]) == 1
  }

  lemma MarkerFreeIsInert(d: Bytes)
    requires START !in d
    ensures Inert(d)
  {
  }

  /** The last six bytes of a frame are some byte, the checksum 0 0 0 1, and the end marker. */
  lemma FrameTailIsInert(m: Message, g: nat)
    requires Framable(m) && g <= 6
    ensures Inert(Frame(m)[PkLen(m) - g..])
  {
    hide Frame, Inert;
    FrameEndsInTrailer(m);
    TrailerIsInert(Frame(m), g);
  }

  lemma FrameEndsInTrailer(m: Message)
    requires Framable(m)
    ensures Frame(m)[PkLen(m) - 5..] == [0, 0, 0, 1, END]
  {
    hide Field, Header;
    var h := Header(m) + Field(WireId(m)) + Field(m.methodName) + EncodeInt32(m.errCode) + Field(m.errInfo) + m.pbData;
    assert Frame(m) == h + TRAILER;
    assert TRAILER == [0, 0, 0, 1, END];
  }

  lemma TrailerIsInert(f: Bytes, g: nat)
    requires g <= 6 <= |f| && f[|f| - 5..] == [0, 0, 0, 1, END]
    ensures Inert(f[|f| - g..])
  {
    var d, t := f[|f| - g..], f[|f| - 5..];
    if g <= 5 {
      assert d == t[5 - g..];
      assert START !in t;
    } else {
      assert d == [f[|f| - 6]] + t;
      assert d[1..5] == [0, 0, 0, 1];
      assert DecodeInt32(d[1..5]) == 1;
    }
  }

  /** An incomplete frame p the decoder leaves alone wherever it lies in a vector of cap bytes: a
      start marker is the last byte, or its whole length word is there and points past the end of
      p or at a byte of p that is no end marker. */
  predicate Patient(p: Bytes, cap: nat) {
    forall k :: 0 <= k < |p| && p[k] == START && k + 1 < |p| ==>
      && k + 5 <= |p|
      && var n := DecodeInt32(p[k + 1..k + 5]);
      && cap + n <= INT_MAX
      && (k + n - 1 >= |p| || (0 <= k + n - 1 && p[k + n - 1] != END))
  }

  lemma PatientIsQuiet(mem: Bytes, at: nat, p: Bytes)
    requires Has(mem, at, p) && Patient(p, |mem|)
    ensures ScanFrom(mem, at, at + |p|) == NoFrame
  {
    hide DecodeInt32;
    forall i | at <= i < at + |p| && mem[i] == START && i + 1 < at + |p|
      ensures i + 5 <= |mem|
      ensures var n := DecodeInt32(mem[i + 1..i + 5]);
              && i + n <= INT_MAX
              && (i + n - 1 >= at + |p| || (0 <= i + n - 1 && mem[i + n - 1] != END))
    {
      var k := i - at;
      assert p[k] == mem[i];
      var n := DecodeInt32(p[k + 1..k + 5]);
      HasPart(mem, at, p, k + 1, k + 5);
      if 0 <= k + n - 1 < |p| {
        assert mem[i + n - 1] == p[k + n - 1];
      }
    }
    assert Quiet(mem, at, at + |p|);
    ScanFindsNothingIffQuiet(mem, at, at + |p|);
  }

  lemma InertPasses(mem: Bytes, at: nat, d: Bytes, write: nat)
    requires Has(mem, at, d) && Inert(d) && at + |d| <= write <= |mem| <= INT_MAX
    ensures ScanFrom(mem, at, write) == ScanFrom(mem, at + |d|, write)
  {
    forall i | at <= i < at + |d| ensures ProbeAt(mem, i, write) == Pass {
      assert d[i - at] == mem[i];
      if mem[i] == START {
        HasPart(mem, at, d, i - at + 1, i - at + 5);
      }
    }
    ScanPasses(mem, at, at + |d|, write);
  }

  /** Behind inert bytes, the scan stops at the frame that follows them. */
  lemma ScanFindsFrame(mem: Bytes, at: nat, d: Bytes, m: Message, write: nat)
    requires Has(mem, at, d) && Inert(d) && FrameAt(mem, at + |d|, m)
    requires at + |d| + PkLen(m) <= write <= |mem| <= INT_MAX
    ensures ScanFrom(mem, at, write) == Match(at + |d|, at + |d| + PkLen(m) - 1, PkLen(m))
  {
    hide Inert, Frame, ProbeAt;
    InertPasses(mem, at, d, write);
    FrameIsHit(mem, at + |d|, m, write);
  }

  lemma FrameIsHit(mem: Bytes, at: nat, m: Message, write: nat)
    requires FrameAt(mem, at, m) && at + PkLen(m) <= write <= |mem| <= INT_MAX
    ensures ProbeAt(mem, at, write) == Hit(at + PkLen(m) - 1, PkLen(m))
  {
    hide Frame, DecodeInt32;
    FrameMarkers(mem, at, m);
  }

  /* ----- One round on a stream ----- */

  /** The unread bytes are d, then whole frames, then p. */
  predicate Holds(l: Layout, d: Bytes, ms: seq<Message>, p: Bytes) {
    l.Valid() && AllFramable(ms) && l.Unread() == d + Stream(ms) + p
  }

  /** The scan stops at the first frame, and its fields are those of the first message. */
  lemma FirstFrameMatches(l: Layout, d: Bytes, ms: seq<Message>, p: Bytes)
    requires Holds(l, d, ms, p) && ms != [] && Encodable(ms[0]) && Inert(d)
    ensures var at, n := l.read + |d|, PkLen(ms[0]);
            && ScanFrom(l.mem, l.read, l.write) == Match(at, at + n - 1, n)
            && ParseFrame(l.mem, at, at + n - 1, n) == Parsed(Received(ms[0]))
            && |d| + n <= |l.Unread()|
  {
    hide Frame, ScanFrom, ParseFrame, Inert, Received, Fits, Stream;
    StreamCons(ms);
    var m, f := ms[0], Frame(ms[0]);
    var rest := Stream(ms[1..]) + p;
    assert d + (f + Stream(ms[1..])) + p == d + (f + rest);
    HasSplit(l.mem, l.read, d, f + rest);
    HasSplit(l.mem, l.read + |d|, f, rest);
    ScanFindsFrame(l.mem, l.read, d, m, l.write);
    ParseRoundTrip(l.mem, l.read + |d|, m);
  }

  /** Dropping as many bytes as the first frame has leaves its own tail where d was. */
  lemma AdvanceKeepsStream(l: Layout, d: Bytes, ms: seq<Message>, p: Bytes)
    requires Holds(l, d, ms, p) && ms != []
    requires |d| <= 6 && l.read + PkLen(ms[0]) < |l.mem|
    ensures var n := PkLen(ms[0]);
            var d' := Frame(ms[0])[n - |d|..];
            && CanMoveRead(l, n)
            && Inert(d')
            && Holds(MoveRead(l, n), d', ms[1..], p)
            && MoveRead(l, n).Unread() == l.Unread()[n..]
  {
    hide Frame, Inert, MoveRead, Stream;
    StreamCons(ms);
    var f, s := Frame(ms[0]), Stream(ms[1..]);
    var n := PkLen(ms[0]);
    assert l.mem[l.read + n..l.write] == l.Unread()[n..];
    DropFrame(d, f, s, p);
    FrameTailIsInert(ms[0], |d|);
  }

  lemma DropFrame(d: Bytes, f: Bytes, s: Bytes, p: Bytes)
    requires |d| <= |f|
    ensures (d + (f + s) + p)[|f|..] == f[|f| - |d|..] + s + p
  {
    assert d + (f + s) + p == d + f + (s + p);
  }

  /** One round of the decode loop on a match that parses; it repeats itself for ever if the
      advance is refused. */
  lemma RoundOnMatch(l: Layout, start: nat, n: nat, m: Message)
    requires l.Valid() && 0 < n && l.read + n <= l.write
    requires ScanFrom(l.mem, l.read, l.write) == Match(start, start + n - 1, n)
    requires ParseFrame(l.mem, start, start + n - 1, n) == Parsed(m)
    ensures DecodeRound(l) == if l.read + n < |l.mem| then Go([m], MoveRead(l, n))
                              else Stop(Decoded(NoProgress, [m], l))
  {
    hide ScanFrom, ParseFrame, MoveRead;
  }

  lemma RoundOnNothing(l: Layout, d: Bytes, p: Bytes)
    requires l.Valid() && l.Unread() == d + p && Inert(d) && Patient(p, |l.mem|)
    ensures DecodeRound(l) == Stop(Decoded(Finished, [], l))
  {
    hide ScanFrom, ParseFrame, MoveRead, Patient, Inert;
    HasSplit(l.mem, l.read, d, p);
    InertPasses(l.mem, l.read, d, l.write);
    PatientIsQuiet(l.mem, l.read + |d|, p);
  }

  /* ----- Whole streams ----- */

  /** The layout once the frames of ms have been dropped, one advance after the other. */
  function SkipFrames(l: Layout, ms: seq<Message>): (r: Layout)
    requires l.Valid()
    ensures r.Valid() && |r.mem| == |l.mem| && r.write <= l.write
    ensures l.Tidy() ==> r.Tidy()
    decreases |ms|
  {
    if ms == [] then l
    else
      var n := PkLen(ms[0]);
      SkipFrames(if CanMoveRead(l, n) then MoveRead(l, n) else l, ms[1..])
  }

  /** What stays in front of the frames of ms once they have been dropped, if d was in front. */
  function Residue(d: Bytes, ms: seq<Message>): (r: Bytes)
    requires AllFramable(ms) && |d| <= 6
    ensures |r| == |d|
    decreases |ms|
  {
    if ms == [] then d else Residue(Frame(ms[0])[PkLen(ms[0]) - |d|..], ms[1..])
  }

  /** Any stream of encodable messages behind at most six inert bytes and in front of any other
      bytes p: the loop returns these messages in order, and then goes on exactly as it would if
      started where it has come to, with p and the tail of the last frame left. */
  lemma {:induction false} DecodeStreamExact(l: Layout, d: Bytes, ms: seq<Message>, p: Bytes)
    requires Holds(l, d, ms, p) && AllEncodable(ms) && Inert(d) && |d| <= 6
    requires ms != [] ==> l.write - |d| - |p| < |l.mem|
    ensures var e := SkipFrames(l, ms);
            && DecodeRun(l) == Prepend(ReceivedAll(ms), DecodeRun(e))
            && e.Unread() == Residue(d, ms) + p
            && Inert(Residue(d, ms))
    decreases |ms|
  {
    hide DecodeRun, DecodeRound, ScanFrom, ParseFrame, MoveRead, Frame, Received, Inert, Stream, Encodable;
    StreamCons(ms);
    if ms == [] {
      assert d + [] + p == d + p;
    } else {
      FirstFrameMatches(l, d, ms, p);
      AdvanceKeepsStream(l, d, ms, p);
      var n := PkLen(ms[0]);
      RoundOnMatch(l, l.read + |d|, n, Received(ms[0]));
      RunUnfolds(l);
      var next := MoveRead(l, n);
      DecodeStreamExact(next, Frame(ms[0])[n - |d|..], ms[1..], p);
      PrependTwice([Received(ms[0])], ReceivedAll(ms[1..]), DecodeRun(SkipFrames(next, ms[1..])));
    }
  }

  /** Where decode returns, what is left is quiet. */
  lemma FinishedIsQuiet(l: Layout)
    requires l.Valid() && DecodeRun(l).outcome == Finished
    ensures var e := DecodeRun(l).layout; Quiet(e.mem, e.read, e.write)
  {
    hide Quiet, DecodeOn;
    var e := DecodeRun(l).layout;
    FinishedFindsNothing(l, MaxBacks(|l.mem|));
    ScanFindsNothingIffQuiet(e.mem, e.read, e.write);
  }

  /** Decode leaves the buffer alone exactly when the unread bytes are quiet. */
  lemma UntouchedIffQuiet(l: Layout)
    requires l.Valid()
    ensures DecodeRun(l) == Decoded(Finished, [], l) <==> Quiet(l.mem, l.read, l.write)
  {
    hide ParseFrame, MoveRead, Quiet, DecodeRun;
    ScanFindsNothingIffQuiet(l.mem, l.read, l.write);
    RunUnfolds(l);
    if DecodeRun(l) == Decoded(Finished, [], l) {
      FinishedIsQuiet(l);
    }
  }

  /** Whole frames in front of an incomplete one, or of anything else: decode returns exactly the
      messages of the frames and waits for the rest if and only if what is left is quiet where it
      then lies. */
  lemma DecodeWaitsIff(l: Layout, d: Bytes, ms: seq<Message>, p: Bytes)
    requires Holds(l, d, ms, p) && AllEncodable(ms) && Inert(d) && |d| <= 6
    requires ms != [] ==> l.write - |d| - |p| < |l.mem|
    ensures var e := SkipFrames(l, ms);
            DecodeRun(l) == Decoded(Finished, ReceivedAll(ms), e) <==> Quiet(e.mem, e.read, e.write)
  {
    hide DecodeRun, Quiet, SkipFrames;
    DecodeStreamExact(l, d, ms, p);
    var e := SkipFrames(l, ms);
    UntouchedIffQuiet(e);
    if DecodeRun(l) == Decoded(Finished, ReceivedAll(ms), e) {
      FinishedIsQuiet(l);
    }
  }

  /** In particular, decode waits for an incomplete frame that is patient. */
  lemma DecodeStream(l: Layout, d: Bytes, ms: seq<Message>, p: Bytes)
    requires Holds(l, d, ms, p) && AllEncodable(ms)
    requires Inert(d) && |d| <= 6 && Patient(p, |l.mem|)
    requires ms != [] ==> l.write - |d| - |p| < |l.mem|
    ensures var r := DecodeRun(l);
            && r.outcome == Finished
            && r.messages == ReceivedAll(ms)
            && r.layout == SkipFrames(l, ms)
            && r.layout.Unread() == Residue(d, ms) + p
  {
    hide DecodeRun, DecodeRound, Inert, Patient, SkipFrames, Residue;
    DecodeStreamExact(l, d, ms, p);
    RoundOnNothing(SkipFrames(l, ms), Residue(d, ms), p);
    RunUnfolds(SkipFrames(l, ms));
  }

  lemma StreamCons(ms: seq<Message>)
    requires AllFramable(ms)
    ensures ms == [] ==> Stream(ms) == [] && ReceivedAll(ms) == []
    ensures ms != [] ==> Stream(ms) == Frame(ms[0]) + Stream(ms[1..])
    ensures ms != [] ==> ReceivedAll(ms) == [Received(ms[0])] + ReceivedAll(ms[1..])
  {
    hide Frame, Received, Framable;
    if ms != [] {
      ReceivedCons(ms);
    }
  }

  lemma ReceivedCons(ms: seq<Message>)
    requires ms != []
    ensures ReceivedAll(ms) == [Received(ms[0])] + ReceivedAll(ms[1..])
  {
    hide Received;
  }

  /* ----- The round trip, and exactly when it fails ----- */

  function AllButLast(ms: seq<Message>): seq<Message>
    requires ms != []
  {
    ms[..|ms| - 1]
  }

  /** The last advance would end at the capacity: the vector is full, and the frames before the
      last are too short to have triggered a compaction. */
  predicate LastAdvanceRefused(l: Layout, ms: seq<Message>)
    requires l.Valid() && ms != [] && AllFramable(ms)
  {
    l.write == |l.mem| && l.read + |Stream(AllButLast(ms))| < |l.mem| / 3
  }

  /** Every stream alone in a buffer: all messages come back, and decode returns with nothing left
      exactly when the last advance is not refused; otherwise it finds the last frame for ever. */
  lemma {:induction false} DecodeFinishesIff(l: Layout, ms: seq<Message>)
    requires l.Tidy() && ms != [] && AllEncodable(ms) && l.Unread() == Stream(ms)
    ensures var r := DecodeRun(l);
            && r.messages == ReceivedAll(ms)
            && r.outcome == (if LastAdvanceRefused(l, ms) then NoProgress else Finished)
            && r.layout.Unread() == (if LastAdvanceRefused(l, ms) then Frame(ms[|ms| - 1]) else [])
    decreases |ms|
  {
    hide DecodeRun, DecodeRound, ScanFrom, ParseFrame, Frame, Received, Stream, Encodable;
    StreamCons(ms);
    StreamCons(ms[1..]);
    StreamCons(AllButLast(ms));
    assert [] + Stream(ms) + [] == Stream(ms);
    if l.write < |l.mem| {
      DecodeStream(l, [], ms, []);
    } else {
      var n := PkLen(ms[0]);
      FirstFrameMatches(l, [], ms, []);
      RoundOnMatch(l, l.read, n, Received(ms[0]));
      RunUnfolds(l);
      if |ms| == 1 {
      } else {
        var next := MoveRead(l, n);
        AdvanceKeepsStream(l, [], ms, []);
        assert next.Unread() == Stream(ms[1..]);
        DecodeFinishesIff(next, ms[1..]);
        assert AllButLast(ms)[1..] == AllButLast(ms[1..]);
      }
    }
  }

  /** Whole-stream round trip through an empty buffer, for every batch: all messages come back, and
      decode returns with nothing left if and only if the last advance is not refused, in
      particular whenever the encoder has left a byte free. */
  lemma EncodeDecodeRoundTrip(l: Layout, ms: seq<Message>)
    requires l.Tidy() && l.Unread() == [] && AllEncodable(ms) && CanEncode(l, ms)
    ensures EncodeRun(l, ms).Valid()
    ensures var full := EncodeRun(l, ms);
            && full.Tidy()
            && DecodeRun(full).messages == ReceivedAll(ms)
            && (DecodeRun(full).outcome == Finished <==> ms == [] || !LastAdvanceRefused(full, ms))
            && (DecodeRun(full).outcome == Finished ==> DecodeRun(full).layout.Unread() == [])
            && (full.write < |full.mem| ==> DecodeRun(full).outcome == Finished)
  {
    EncodeAppendsStream(l, ms);
    var full := EncodeRun(l, ms);
    assert full.Unread() == Stream(ms);
    if ms == [] {
      DecodeStream(full, [], ms, []);
    } else {
      DecodeFinishesIff(full, ms);
    }
  }

  /** The failing case exists for every message: a buffer made for exactly one frame of it. */
  lemma ExactFillNeverEnds(m: Message)
    requires Encodable(m)
    ensures CanEncode(Fresh(PkLen(m)), [m])
    ensures var full := EncodeRun(Fresh(PkLen(m)), [m]);
            && full.Tidy() && LastAdvanceRefused(full, [m])
            && DecodeRun(full).outcome == NoProgress && DecodeRun(full).messages == ReceivedAll([m])
  {
    hide Frame, DecodeRun;
    var l := Fresh(PkLen(m));
    assert CanEncode(Append(l, Frame(m)), []);
    assert EncodeRun(l, [m]) == Append(l, Frame(m));
    EncodeAppendsStream(l, [m]);
    DecodeFinishesIff(EncodeRun(l, [m]), [m]);
  }
}
