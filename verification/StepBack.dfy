/** A match of negative length moves the read index back into bytes already consumed, and decode may
    return all the same: a stream whose second message is found inside the first one, and whose
    own bytes are then dropped without a message. */
module StepBacks {
  import opened Bytes
  import opened TcpBuffers
  import opened ProtobufFrames
  import opened ProtobufCoder
  import opened StreamDecoding
  import opened IncompleteFrames
  import opened ChunkedReading

  /* ----- Two messages ----- */

  function Word(n: byte): (s: Bytes)
    ensures |s| == 4 && DecodeInt32(s) == n as int
  {
    [0, 0, 0, n]
  }

  /** The beginning of a frame of n bytes with an id of k bytes. */
  function Lead(n: byte, k: byte): (s: Bytes)
    ensures |s| == 9
  {
    [START] + Word(n) + Word(k)
  }

  const TAIL: Bytes := [0, 0, 0, 1, END]

  const MINUS_75: Bytes := [255, 255, 255, 181]

  /** The frame of SECOND up to the cut. Its id is a start marker with the length -75. */
  const FRONT: Bytes := Lead(41, 5) + ([START] + MINUS_75) + Zeros(12) + [END]

  /** The rest of it: a marker with the length 14, and no room for the id. */
  const BACK: Bytes := Lead(14, 5) + TAIL

  const SECOND: Message := Message([START] + MINUS_75, [], 0, [], [END] + Lead(14, 5), 0, 0, 0, 0, 0, false)

  /** Markers with the lengths 19 and 42, and no room for their ids. */
  const DECOYS: Bytes := Lead(19, 10) + Lead(42, 32) + [END]

  const FIRST: Message :=
    Message([97], [], 0, [], [END] + (FRONT + BACK) + [9] + DECOYS, 0, 0, 0, 0, 0, false)

  const HEAD: Bytes := Lead(89, 1) + [97] + Zeros(12)

  lemma Sizes()
    ensures |HEAD| == 22 && |FRONT| == 27 && |BACK| == 14 && |DECOYS| == 19
    ensures PkLen(FIRST) == 89 && PkLen(SECOND) == 41
    ensures Encodable(FIRST) && Encodable(SECOND)
  {
  }

  lemma PlainFrame(m: Message, n: byte, k: byte)
    requires Framable(m) && m.methodName == [] && m.errCode == 0 && m.errInfo == []
    requires PkLen(m) == n as int && |WireId(m)| == k as int
    ensures Frame(m) == Lead(n, k) + WireId(m) + Zeros(12) + m.pbData + TAIL
  {
    hide EncodeInt32;
    Words(n, k);
    var o := Word(0);
    assert Zeros(12) == o + o + o;
    assert Frame(m) == Header(m) + Field(WireId(m)) + Field([]) + o + Field([]) + m.pbData + TRAILER;
    assert Field(WireId(m)) == Word(k) + WireId(m) && Field([]) == o && TRAILER == TAIL;
  }

  lemma Words(n: byte, k: byte)
    ensures EncodeInt32(n as int) == Word(n) && EncodeInt32(k as int) == Word(k)
    ensures EncodeInt32(0) == Word(0) && EncodeInt32(1) == Word(1)
  {
  }

  lemma Frames()
    ensures Encodable(FIRST) && PkLen(FIRST) == 89 && Encodable(SECOND) && PkLen(SECOND) == 41
    ensures Frame(FIRST) == (HEAD + [END]) + (FRONT + BACK) + ([9] + DECOYS) + TAIL
    ensures Frame(SECOND) == FRONT + BACK
  {
    hide Frame, Lead, Zeros;
    Sizes();
    PlainFrame(FIRST, 89, 1);
    PlainFrame(SECOND, 41, 5);
  }

  /* ----- What the scan finds ----- */

  lemma MarkerDecides(mem: Bytes, at: nat, w: Bytes, write: nat)
    requires |w| == 4 && Has(mem, at, [START] + w) && at + 1 < write <= |mem| && at + DecodeInt32(w) <= INT_MAX
    ensures var j := at + DecodeInt32(w) - 1;
            && (j >= write ==> ProbeAt(mem, at, write) == Pass)
            && (0 <= j < write && mem[j] == END ==> ProbeAt(mem, at, write) == Hit(j, DecodeInt32(w)))
  {
    hide DecodeInt32;
    HasPart(mem, at, [START] + w, 1, 5);
    assert ([START] + w)[1..5] == w;
    assert mem[at] == mem[at..at + 5][0];
  }

  /** Bytes without a marker, then a marker that announces an end marker. */
  lemma FindsMarker(mem: Bytes, gap: Bytes, at: nat, w: Bytes, write: nat)
    requires START !in gap && |gap| <= at && Has(mem, at - |gap|, gap) && |w| == 4 && Has(mem, at, [START] + w)
    requires at + 1 < write <= |mem| <= INT_MAX
    requires var j := at + DecodeInt32(w) - 1; 0 <= j < write && mem[j] == END
    ensures var n := DecodeInt32(w);
            ScanFrom(mem, at - |gap|, write) == Match(at, at + n - 1, n)
  {
    hide DecodeInt32, Inert, ProbeAt, Has;
    MarkerFreeIsInert(gap);
    assert at - |gap| + |gap| == at;
    assert at < |mem|;
    InertPasses(mem, at - |gap|, gap, write);
    MarkerDecides(mem, at, w, write);
    ScanStopsAt(mem, at, write);
  }

  /** A lead whose id would reach the end marker: a match that gives no message. */
  lemma FindsLead(mem: Bytes, gap: Bytes, at: nat, n: byte, k: byte, write: nat)
    requires START !in gap && |gap| <= at && Has(mem, at - |gap|, gap) && Has(mem, at, Lead(n, k))
    requires 9 < n && n as int <= k as int + 10 && k < 100
    requires at + n as int <= write <= |mem| <= INT_MAX && at + 9 + k as int <= |mem|
    requires mem[at + n as int - 1] == END
    ensures ScanFrom(mem, at - |gap|, write) == Match(at, at + n as int - 1, n as int)
    ensures ParseFrame(mem, at, at + n as int - 1, n as int) == Rejected
  {
    hide Word, Has, ScanFrom, ParseFrame;
    HasSplit(mem, at, [START] + Word(n), Word(k));
    FindsMarker(mem, gap, at, Word(n), write);
    IdTooLong(mem, at, n as int, Word(k));
  }

  lemma IdTooLong(mem: Bytes, at: nat, n: nat, w: Bytes)
    requires |w| == 4 && Has(mem, at + 5, w) && 0 <= DecodeInt32(w) < 100
    requires n <= DecodeInt32(w) + 10 && at + 9 + DecodeInt32(w) <= |mem|
    ensures ParseFrame(mem, at, at + n - 1, n) == Rejected
  {
    hide DecodeInt32;
  }

  lemma RejectedRound(l: Layout, at: nat, n: int)
    requires l.Tidy() && at + n > 0 && ScanFrom(l.mem, l.read, l.write) == Match(at, at + n - 1, n)
    requires ParseFrame(l.mem, at, at + n - 1, n) == Rejected
    requires n != 0 && 0 <= l.read + n <= l.write && l.read + n < |l.mem|
    ensures DecodeRound(l) == if n > 0 then Go([], MoveRead(l, n))
                              else Stop(Decoded(SteppedBack, [], MoveRead(l, n)))
  {
    hide ScanFrom, ParseFrame, MoveRead;
  }

  /* ----- The first read ----- */

  const CAP: nat := 270

  const MEM: Bytes := Frame(FIRST) + FRONT + Zeros(CAP - 116)

  const CHUNKS: seq<Bytes> := [Frame(FIRST) + FRONT, BACK]

  lemma FourParts(mem: Bytes, at: nat, a: Bytes, b: Bytes, c: Bytes, d: Bytes)
    requires Has(mem, at, a + b + c + d)
    ensures Has(mem, at, a) && Has(mem, at + |a|, b) && Has(mem, at + |a| + |b|, c)
    ensures Has(mem, at + |a| + |b| + |c|, d)
  {
    HasSplit(mem, at, a + b + c, d);
    HasSplit(mem, at, a + b, c);
    HasSplit(mem, at, a, b);
  }

  /** Where everything is in the vector. */
  lemma Positions()
    ensures |MEM| == CAP && FrameAt(MEM, 0, FIRST) && FrameAt(MEM, 23, SECOND)
    ensures Has(MEM, 0, HEAD + [END]) && Has(MEM, 64, [9] + DECOYS) && Has(MEM, 89, FRONT)
    ensures Has(MEM, 50, BACK)
    ensures Has(MEM, 116, Zeros(CAP - 116))
  {
    hide Frame, Zeros, HEAD, FRONT, BACK, DECOYS, Has, FIRST, SECOND;
    Frames();
    Sizes();
    assert Has(MEM, 0, MEM) by { HasItself(MEM); }
    assert Frame(FIRST) + FRONT + Zeros(CAP - 116) == Frame(FIRST) + (FRONT + Zeros(CAP - 116));
    HasSplit(MEM, 0, Frame(FIRST), FRONT + Zeros(CAP - 116));
    HasSplit(MEM, 89, FRONT, Zeros(CAP - 116));
    FourParts(MEM, 0, HEAD + [END], FRONT + BACK, [9] + DECOYS, TAIL);
    HasSplit(MEM, 23, FRONT, BACK);
  }

  lemma HasItself(s: Bytes)
    ensures Has(s, 0, s)
  {
  }

  /** The parts of the second frame before the cut. */
  lemma FrontParts(mem: Bytes, at: nat)
    requires Has(mem, at, FRONT)
    ensures Has(mem, at, [START] + Word(41)) && Has(mem, at + 1, Word(41)) && Has(mem, at + 5, Word(5))
    ensures Has(mem, at + 9, [START] + MINUS_75)
    ensures mem[at + 26] == END
  {
    hide Word, Has;
    FourParts(mem, at, Lead(41, 5), [START] + MINUS_75, Zeros(12), [END]);
    HasSplit(mem, at, [START] + Word(41), Word(5));
    HasSplit(mem, at, [START], Word(41));
    LastOf(mem, at + 26, END);
  }

  lemma LastOf(mem: Bytes, at: nat, b: byte)
    requires Has(mem, at, [b])
    ensures mem[at] == b
  {
    assert mem[at] == mem[at..at + 1][0];
  }

  /** The buffer during the first decode, with the read index there. */
  function At(read: nat): (l: Layout)
    requires read <= 116
    ensures l.Valid() && |l.mem| == CAP
  {
    Positions();
    Layout(MEM, read, 116)
  }

  lemma ReadMoves(read: nat, n: int)
    requires read < 90 && 0 <= read + n < 90
    ensures CanMoveRead(At(read), n) && MoveRead(At(read), n) == At(read + n)
  {
    hide MEM;
    Positions();
  }

  lemma AllArrived()
    ensures |CHUNKS[0]| == 116 && Receive(Fresh(CAP), CHUNKS[0]) == At(0)
  {
    hide Frame, FIRST, FRONT;
    Frames();
    Sizes();
    SpliceIntoZeros(CAP, CHUNKS[0]);
  }

  /** The first message, as it should be. */
  lemma FirstRound()
    ensures DecodeRound(At(0)) == Go([Received(FIRST)], At(89))
  {
    hide Frame, ScanFrom, ParseFrame, MoveRead, Received, Inert, MEM, FIRST;
    Positions();
    Frames();
    MarkerFreeIsInert([]);
    ScanFindsFrame(MEM, 0, [], FIRST, 116);
    ParseRoundTrip(MEM, 0, FIRST);
    RoundOnMatch(At(0), 0, 89, Received(FIRST));
    ReadMoves(0, 89);
  }

  /** The beginning of the second frame is passed over, since it announces an end that is not there;
      but its id announces an end marker 75 bytes back. */
  lemma ScanStepsBack()
    ensures ScanFrom(MEM, 89, 116) == Match(98, 22, -75)
  {
    hide ProbeAt, MEM, FRONT, HEAD, Inert, Has;
    Positions();
    Sizes();
    HasSplit(MEM, 0, HEAD, [END]);
    LastOf(MEM, 22, END);
    FrontParts(MEM, 89);
    MarkerDecides(MEM, 89, Word(41), 116);
    MarkerFreeIsInert(Word(41));
    InertPasses(MEM, 90, Word(41), 116);
    assert DecodeInt32(MINUS_75) == -75;
    FindsMarker(MEM, Word(5), 98, MINUS_75, 116);
  }

  lemma BackwardRound()
    ensures DecodeRound(At(89)) == Stop(Decoded(SteppedBack, [], At(14)))
  {
    hide ScanFrom, ParseFrame, MoveRead, MEM;
    ScanStepsBack();
    RejectedOutright(MEM, 98, 22, -75);
    RejectedRound(At(89), 98, -75);
    ReadMoves(89, -75);
  }

  /** The second message, found inside the first. */
  lemma InnerRound()
    ensures DecodeRound(At(14)) == Go([Received(SECOND)], At(55))
  {
    hide Frame, ScanFrom, ParseFrame, MoveRead, Received, Inert, MEM, SECOND;
    Positions();
    Frames();
    var d := (HEAD + [END])[14..];
    assert d == Zeros(8) + [END];
    HasPart(MEM, 0, HEAD + [END], 14, 23);
    MarkerFreeIsInert(d);
    ScanFindsFrame(MEM, 14, d, SECOND, 116);
    ParseRoundTrip(MEM, 23, SECOND);
    RoundOnMatch(At(14), 23, 41, Received(SECOND));
    ReadMoves(14, 41);
  }

  /** The decoys and the bytes in front of them. */
  lemma DecoyParts()
    ensures |MEM| == CAP && Has(MEM, 55, Word(5) + TAIL + [9])
    ensures Has(MEM, 65, Lead(19, 10)) && Has(MEM, 74, Lead(42, 32))
    ensures MEM[83] == MEM[115] == END
  {
    hide MEM, FRONT, HEAD, Has, Lead, Word, DECOYS;
    Positions();
    Sizes();
    FrontParts(MEM, 89);
    HasSplit(MEM, 64, [9], DECOYS);
    DecoysAt(MEM, 65);
    LeadEnds(MEM, 50, 14, 5, TAIL);
    HasJoin(MEM, 55, Word(5) + TAIL, [9]);
  }

  lemma DecoysAt(mem: Bytes, at: nat)
    requires Has(mem, at, DECOYS)
    ensures Has(mem, at, Lead(19, 10)) && Has(mem, at + 9, Lead(42, 32)) && mem[at + 18] == END
  {
    hide Has, Lead;
    HasSplit(mem, at, Lead(19, 10) + Lead(42, 32), [END]);
    HasSplit(mem, at, Lead(19, 10), Lead(42, 32));
    LastOf(mem, at + 18, END);
  }

  lemma LeadEnds(mem: Bytes, at: nat, n: byte, k: byte, t: Bytes)
    requires Has(mem, at, Lead(n, k) + t)
    ensures Has(mem, at + 5, Word(k) + t)
  {
    hide Has, Word;
    assert Lead(n, k) + t == ([START] + Word(n)) + (Word(k) + t);
    HasSplit(mem, at, [START] + Word(n), Word(k) + t);
  }

  lemma HasJoin(mem: Bytes, at: nat, a: Bytes, b: Bytes)
    requires Has(mem, at, a) && Has(mem, at + |a|, b)
    ensures Has(mem, at, a + b)
  {
  }

  lemma DecoyRounds()
    ensures DecodeRound(At(55)) == Go([], At(74))
    ensures DecodeRound(At(74)) == Go([], Fresh(CAP))
  {
    hide ScanFrom, ParseFrame, MoveRead, MEM, Has, Lead;
    DecoyParts();
    FindsLead(MEM, Word(5) + TAIL + [9], 65, 19, 10, 116);
    RejectedRound(At(55), 65, 19);
    ReadMoves(55, 19);
    NoGap(MEM, 74);
    FindsLead(MEM, [], 74, 42, 32, 116);
    RejectedRound(At(74), 74, 42);
    AllDropped();
  }

  lemma NoGap(mem: Bytes, at: nat)
    requires at <= |mem|
    ensures Has(mem, at, [])
  {
  }

  lemma AllDropped()
    ensures CanMoveRead(At(74), 42) && MoveRead(At(74), 42) == Fresh(CAP)
  {
    hide MEM;
    Positions();
  }

  lemma EmptyRound(l: Layout)
    requires l.Valid() && l.Unread() == []
    ensures DecodeRound(l) == Stop(Decoded(Finished, [], l))
  {
  }

  /** The first decode returns both messages, sent with 130 bytes, although only 116 have arrived. */
  lemma FirstDecode()
    ensures DecodeRun(At(0)) == Decoded(Finished, [Received(FIRST), Received(SECOND)], Fresh(CAP))
  {
    hide DecodeRound, Received, At, MaxBacks, FIRST, SECOND;
    FirstRound();
    BackwardRound();
    InnerRound();
    DecoyRounds();
    EmptyRound(Fresh(CAP));
    assert DecodeStretch(At(89)) == Decoded(SteppedBack, [], At(14));
    assert DecodeStretch(At(0)) == Decoded(SteppedBack, [Received(FIRST)], At(14));
    assert DecodeStretch(Fresh(CAP)) == Decoded(Finished, [], Fresh(CAP));
    assert DecodeStretch(At(74)) == Decoded(Finished, [], Fresh(CAP));
    assert DecodeStretch(At(55)) == Decoded(Finished, [], Fresh(CAP));
    assert DecodeStretch(At(14)) == Decoded(Finished, [Received(SECOND)], Fresh(CAP));
    BacksArePositive(CAP);
    assert DecodeOn(At(14), MaxBacks(CAP) - 1) == Decoded(Finished, [Received(SECOND)], Fresh(CAP));
  }

  lemma BacksArePositive(size: nat)
    ensures MaxBacks(size) > 0
  {
  }

  /* ----- The second read ----- */

  /** The rest of the second frame is dropped without a message. */
  lemma SecondDecode()
    ensures |BACK| == 14
    ensures var r := DecodeRun(Receive(Fresh(CAP), BACK));
            r.outcome == Finished && r.messages == [] && r.layout.Unread() == []
  {
    hide DecodeRun, DecodeRound, ScanFrom, ParseFrame, MoveRead, BACK, Has, Lead;
    Sizes();
    BackArrived();
    var l := Receive(Fresh(CAP), BACK);
    BackParts(l.mem);
    NoGap(l.mem, 0);
    FindsLead(l.mem, [], 0, 14, 5, 14);
    RejectedRound(l, 0, 14);
    var e := MoveRead(l, 14);
    EmptyRound(e);
    RunUnfolds(l);
    RunUnfolds(e);
    assert DecodeRun(l) == Prepend([], DecodeRun(e));
  }

  lemma BackArrived()
    requires |BACK| == 14
    ensures Receive(Fresh(CAP), BACK) == Layout(BACK + Zeros(CAP - 14), 0, 14)
  {
    hide BACK;
    SpliceIntoZeros(CAP, BACK);
  }

  lemma BackParts(mem: Bytes)
    requires mem == BACK + Zeros(CAP - 14)
    ensures |mem| == CAP && Has(mem, 0, Lead(14, 5)) && mem[13] == END
  {
    hide Lead, Has;
    HasItself(mem);
    HasSplit(mem, 0, BACK, Zeros(CAP - 14));
    HasSplit(mem, 0, Lead(14, 5), TAIL);
  }

  /* ----- The whole run ----- */

  /** Everything comes through in the end, although what the first read leaves is not quiet; and the
      first decode returns messages sent with more bytes than it drops. */
  lemma StepBackDelivers()
    ensures AllEncodable([FIRST, SECOND]) && Concat(CHUNKS) == Stream([FIRST, SECOND])
    ensures Askable(Fresh(CAP), CHUNKS)
    ensures DeliversAll(ReadRun(Fresh(CAP), CHUNKS), [FIRST, SECOND], 0)
    ensures !QuietThroughout(Fresh(CAP), [FIRST, SECOND], 0, CHUNKS)
    ensures var l := Receive(Fresh(CAP), CHUNKS[0]);
            LengthSum(DecodeRun(l).messages) > |l.Unread()| - |DecodeRun(l).layout.Unread()|
  {
    hide DecodeRun, Receive, Frame, Received, MEM, BACK, FRONT, Encodable, QuietThroughout, FIRST, SECOND;
    TheStream();
    AllArrived();
    FirstDecode();
    SecondDecode();
    LeftoverIsNotQuiet();
    BothSent();
    assert CHUNKS[1..] == [BACK] && [BACK][1..] == [];
    var l := DecodeRun(Receive(Fresh(CAP), BACK)).layout;
    assert Askable(l, []) && ReadRun(l, []) == Progress(true, [], l);
    assert ReadStep(Fresh(CAP), BACK) == Decoded(Finished, [], l);
    assert Askable(Fresh(CAP), [BACK]) && ReadRun(Fresh(CAP), [BACK]) == Progress(true, [], l);
  }

  lemma TheStream()
    ensures AllEncodable([FIRST, SECOND]) && Concat(CHUNKS) == Stream([FIRST, SECOND])
  {
    hide Frame, FIRST, SECOND, FRONT, BACK;
    Frames();
    assert Stream([FIRST, SECOND]) == Frame(FIRST) + (Frame(SECOND) + []) by {
      assert Stream([]) == [];
      assert Stream([SECOND]) == Frame(SECOND) + [];
      assert [FIRST, SECOND][1..] == [SECOND];
    }
    assert Concat(CHUNKS) == CHUNKS[0] + (BACK + []) by {
      assert Concat([]) == [];
      assert Concat([BACK]) == BACK + [];
      assert CHUNKS[1..] == [BACK];
    }
  }

  lemma BothSent()
    ensures LengthSum([Received(FIRST), Received(SECOND)]) == 130
  {
    hide FIRST, SECOND;
    Sizes();
    assert [Received(FIRST), Received(SECOND)][1..] == [Received(SECOND)];
    assert LengthSum([Received(SECOND)][1..]) == 0;
  }

  lemma LeftoverIsNotQuiet()
    requires AllEncodable([FIRST, SECOND]) && |CHUNKS[0]| == 116
    ensures !QuietThroughout(Fresh(CAP), [FIRST, SECOND], 0, CHUNKS)
  {
    hide Receive, Frame, MEM, BACK, FRONT, Quiet, ScanFrom, MoveRead, Encodable, FIRST, SECOND;
    var ms := [FIRST, SECOND];
    Sizes();
    assert ms[1..] == [SECOND] && ms[..1] == [FIRST];
    assert Whole(ms, 0) == 0 && Whole([SECOND], 27) == 0 && Whole(ms, 116) == 1;
    AllArrived();
    ReadMoves(0, 89);
    assert SkipFrames(At(89), []) == At(89);
    assert SkipFrames(At(0), [FIRST]) == At(89);
    assert Settled(Fresh(CAP), ms, 0, CHUNKS[0]) == At(89);
    ScanStepsBack();
    ScanFindsNothingIffQuiet(MEM, 89, 116);
  }
}
