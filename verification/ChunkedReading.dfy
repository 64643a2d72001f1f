/** A stream that arrives in pieces: exactly when reading and decoding after every piece gives the
    messages that one decode of the whole stream gives. */
module ChunkedReading {
  import opened Bytes
  import opened TcpBuffers
  import opened ProtobufFrames
  import opened ProtobufCoder
  import opened DecodeLoops
  import opened StreamDecoding
  import opened IncompleteFrames
  import opened TcpConnections

  function Concat(chunks: seq<Bytes>): Bytes {
    if chunks == [] then [] else chunks[0] + Concat(chunks[1..])
  }

  /** One read(2) of on_read. If it leaves a byte of the vector free it is the last one, and decode
      follows; if it fills the vector, its bytes are lost and another read follows. An empty piece
      stands for EAGAIN. */
  function ReadStep(l: Layout, piece: Bytes): (d: Decoded)
    requires l.Valid() && |piece| <= l.Free()
    ensures d.layout.Valid() && |d.layout.mem| == |l.mem|
    ensures l.write < |l.mem| ==> d.layout.write < |d.layout.mem|
  {
    if |piece| < l.Free() then DecodeRun(Receive(l, piece)) else Decoded(Finished, [], Receive(l, piece))
  }

  /** What read(2) returns for a piece. */
  function ResultOf(piece: Bytes): ReadResult {
    if piece == [] then WouldBlock else Data(piece)
  }

  /** On an input buffer a step is what on_read does with that result: it reads, and decodes unless it
      goes on reading. */
  lemma StepIsOnRead(l: Layout, piece: Bytes)
    requires Slack(l) && 3 <= |l.mem| && |piece| <= l.Free()
    ensures Feasible(l, [ResultOf(piece)])
    ensures var r := ReadLoop(l, [ResultOf(piece)]);
            && ReadStep(l, piece) == (if r.end == Execute then DecodeRun(r.layout) else Decoded(Finished, [], r.layout))
            && (r.end == Waiting <==> |piece| == l.Free())
  {
    hide DecodeRun;
    assert [ResultOf(piece)][1..] == [];
    if piece == [] {
      assert Splice(l.mem, l.write, []) == l.mem;
    }
  }

  /** No read returns more bytes than there is room for. */
  predicate Askable(l: Layout, chunks: seq<Bytes>)
    requires l.Valid()
    decreases |chunks|
  {
    chunks == []
    || (|chunks[0]| <= l.Free()
        && var d := ReadStep(l, chunks[0]);
           d.outcome == Finished ==> Askable(d.layout, chunks[1..]))
  }

  /** How far reading and decoding has come; done says that every decode returned. */
  datatype Progress = Progress(done: bool, messages: seq<Message>, layout: Layout)

  /** One read after the other; the run ends where decode does not return. */
  function ReadRun(l: Layout, chunks: seq<Bytes>): (r: Progress)
    requires l.Valid() && Askable(l, chunks)
    ensures r.layout.Valid() && |r.layout.mem| == |l.mem|
    decreases |chunks|
  {
    if chunks == [] then Progress(true, [], l)
    else
      var d := ReadStep(l, chunks[0]);
      if d.outcome != Finished then Progress(false, d.messages, d.layout)
      else
        var rest := ReadRun(d.layout, chunks[1..]);
        rest.(messages := d.messages + rest.messages)
  }

  /** Reads that fill the vector and a last one that does not are one call of on_read, followed by one
      decode. */
  lemma {:induction false} BurstIsOneOnRead(l: Layout, burst: seq<Bytes>, last: Bytes)
    requires Slack(l) && 3 <= |l.mem| && |last| < l.Free()
    requires forall i :: 0 <= i < |burst| ==> |burst[i]| == l.Free()
    ensures Feasible(l, Results(burst + [last])) && Askable(l, burst + [last])
    ensures var r, run := ReadLoop(l, Results(burst + [last])), ReadRun(l, burst + [last]);
            var d := DecodeRun(r.layout);
            && r.end == Execute
            && run == Progress(d.outcome == Finished, d.messages, d.layout)
    decreases |burst|
  {
    hide DecodeRun, Receive;
    var all := burst + [last];
    if burst == [] {
      assert all == [last] && Results(all) == [ResultOf(last)] && all[1..] == [];
      StepIsOnRead(l, last);
    } else {
      var next := Receive(l, burst[0]);
      FillingKeepsRoom(l, Data(burst[0]));
      BurstIsOneOnRead(next, burst[1..], last);
      assert all[0] == burst[0] && all[1..] == burst[1..] + [last];
      assert Results(all)[0] == Data(burst[0]) && Results(all)[1..] == Results(all[1..]);
    }
  }

  function Results(pieces: seq<Bytes>): (rs: seq<ReadResult>)
    ensures |rs| == |pieces| && forall i :: 0 <= i < |pieces| ==> rs[i] == ResultOf(pieces[i])
  {
    seq(|pieces|, i requires 0 <= i < |pieces| => ResultOf(pieces[i]))
  }

  /* ----- Cutting a stream after n bytes ----- */

  /** How many whole frames the first n bytes of the stream hold. */
  function Whole(ms: seq<Message>, n: nat): (k: nat)
    requires AllFramable(ms)
    ensures k <= |ms|
  {
    if ms == [] || n < PkLen(ms[0]) then 0 else 1 + Whole(ms[1..], n - PkLen(ms[0]))
  }

  /** The bytes of the incomplete frame behind them. */
  function Leftover(ms: seq<Message>, n: nat): Bytes
    requires AllFramable(ms)
  {
    if ms == [] then []
    else if n < PkLen(ms[0]) then Frame(ms[0])[..n]
    else Leftover(ms[1..], n - PkLen(ms[0]))
  }

  lemma {:induction false} CutStream(ms: seq<Message>, n: nat)
    requires AllFramable(ms) && n <= |Stream(ms)|
    ensures Stream(ms)[..n] == Stream(ms[..Whole(ms, n)]) + Leftover(ms, n)
    decreases |ms|
  {
    hide Frame, Stream;
    var k := Whole(ms, n);
    StreamCons(ms);
    StreamCons(ms[..k]);
    if ms != [] && PkLen(ms[0]) <= n {
      CutStream(ms[1..], n - PkLen(ms[0]));
      assert ms[..k][0] == ms[0] && ms[..k][1..] == ms[1..][..k - 1];
      TakeBeyond(Frame(ms[0]), Stream(ms[1..]), n, Stream(ms[1..][..k - 1]), Leftover(ms, n));
    } else {
      assert ms[..k] == [];
    }
  }

  lemma TakeBeyond(f: Bytes, s: Bytes, n: nat, a: Bytes, b: Bytes)
    requires |f| <= n <= |f| + |s| && s[..n - |f|] == a + b
    ensures (f + s)[..n] == f + a + b
  {
    assert (f + s)[..n] == f + s[..n - |f|];
    assert f + (a + b) == f + a + b;
  }

  lemma {:induction false} WholeGrows(ms: seq<Message>, n: nat, n': nat)
    requires AllFramable(ms) && n <= n'
    ensures Whole(ms, n) <= Whole(ms, n')
    decreases |ms|
  {
    if ms != [] && PkLen(ms[0]) <= n {
      WholeGrows(ms[1..], n - PkLen(ms[0]), n' - PkLen(ms[0]));
    }
  }

  lemma {:induction false} WholeOfAll(ms: seq<Message>)
    requires AllFramable(ms)
    ensures Whole(ms, |Stream(ms)|) == |ms| && Leftover(ms, |Stream(ms)|) == []
    decreases |ms|
  {
    if ms != [] {
      WholeOfAll(ms[1..]);
    }
  }

  lemma {:induction false} StreamSplit(ms: seq<Message>, j: nat, k: nat)
    requires AllFramable(ms) && j <= k <= |ms|
    ensures Stream(ms[..k]) == Stream(ms[..j]) + Stream(ms[j..k])
    decreases j
  {
    hide Frame, Stream;
    StreamCons(ms[..j]);
    StreamCons(ms[..k]);
    if j == 0 {
      assert ms[0..k] == ms[..k];
    } else {
      StreamSplit(ms[1..], j - 1, k - 1);
      assert ms[..k][1..] == ms[1..][..k - 1] && ms[..j][1..] == ms[1..][..j - 1];
      assert ms[j..k] == ms[1..][j - 1..k - 1];
    }
  }

  /** What is left of the stream after n bytes, plus a piece, is the frames that the piece
      completes and what is left after it. */
  lemma PieceCompletesFrames(ms: seq<Message>, n: nat, piece: Bytes)
    requires AllFramable(ms) && n + |piece| <= |Stream(ms)|
    requires Stream(ms)[n..n + |piece|] == piece
    ensures var k, k' := Whole(ms, n), Whole(ms, n + |piece|);
            k <= k' && Leftover(ms, n) + piece == Stream(ms[k..k']) + Leftover(ms, n + |piece|)
  {
    hide Leftover, Whole, Stream;
    var n' := n + |piece|;
    var k, k' := Whole(ms, n), Whole(ms, n');
    WholeGrows(ms, n, n');
    CutStream(ms, n);
    CutStream(ms, n');
    StreamSplit(ms, k, k');
    var head := Stream(ms[..k]);
    assert Stream(ms)[..n'] == Stream(ms)[..n] + piece;
    var a, b, c := Leftover(ms, n), Stream(ms[k..k']), Leftover(ms, n');
    assert head + a + piece == head + b + c;
    assert head + (a + piece) == head + a + piece;
    assert head + (b + c) == head + b + c;
    Cancel(head, a + piece, b + c);
  }

  lemma Cancel(a: Bytes, b: Bytes, c: Bytes)
    requires a + b == a + c
    ensures b == c
  {
    assert b == (a + b)[|a|..];
    assert c == (a + c)[|a|..];
  }

  lemma {:induction false} LeftoverIsShort(ms: seq<Message>, n: nat)
    requires AllFramable(ms)
    ensures Whole(ms, n) == |ms| ==> Leftover(ms, n) == []
    ensures Whole(ms, n) < |ms| ==>
              var m := ms[Whole(ms, n)];
              |Leftover(ms, n)| < PkLen(m) && Leftover(ms, n) == Frame(m)[..|Leftover(ms, n)|]
    decreases |ms|
  {
    hide Frame;
    if ms != [] && PkLen(ms[0]) <= n {
      LeftoverIsShort(ms[1..], n - PkLen(ms[0]));
    }
  }

  /* ----- One piece ----- */

  /** The messages whose frames the bytes from n to n' complete. */
  function Completed(ms: seq<Message>, n: nat, n': nat): (got: seq<Message>)
    requires AllFramable(ms) && n <= n'
    ensures |got| == Whole(ms, n') - Whole(ms, n)
    ensures forall m :: m in got ==> m in ms
  {
    WholeGrows(ms, n, n');
    ms[Whole(ms, n)..Whole(ms, n')]
  }

  /** Where a piece leaves the buffer once the frames it completes have been dropped. */
  function Settled(l: Layout, ms: seq<Message>, n: nat, piece: Bytes): (e: Layout)
    requires l.Valid() && AllFramable(ms) && |piece| < l.Free()
    ensures e.Tidy() && |e.mem| == |l.mem| && e.write < |e.mem|
  {
    SkipFrames(Receive(l, piece), Completed(ms, n, n + |piece|))
  }

  /** A piece arrives behind the incomplete frame and at most six inert bytes: decode returns the
      messages it completes, and then goes on with the incomplete frame that it leaves. */
  lemma ReadPiece(l: Layout, d: Bytes, ms: seq<Message>, n: nat, piece: Bytes)
    requires l.Valid() && AllEncodable(ms) && |piece| < l.Free()
    requires n + |piece| <= |Stream(ms)| && Stream(ms)[n..n + |piece|] == piece
    requires Inert(d) && |d| <= 6 && l.Unread() == d + Leftover(ms, n)
    ensures var got, e := Completed(ms, n, n + |piece|), Settled(l, ms, n, piece);
            && DecodeRun(Receive(l, piece)) == Prepend(ReceivedAll(got), DecodeRun(e))
            && e.Unread() == Residue(d, got) + Leftover(ms, n + |piece|)
            && Inert(Residue(d, got))
            && Holds(Receive(l, piece), d, got, Leftover(ms, n + |piece|))
  {
    hide DecodeRun, Receive, Stream, Leftover, Whole, Inert, Encodable, Received, SkipFrames, Residue;
    PieceCompletesFrames(ms, n, piece);
    var got, p := Completed(ms, n, n + |piece|), Leftover(ms, n + |piece|);
    Regroup(d, Leftover(ms, n), piece, Stream(got), p);
    DecodeStreamExact(Receive(l, piece), d, got, p);
  }

  lemma Regroup(d: Bytes, a: Bytes, piece: Bytes, s: Bytes, p: Bytes)
    requires a + piece == s + p
    ensures d + a + piece == d + s + p
  {
    assert d + a + piece == d + (a + piece);
    assert d + s + p == d + (s + p);
  }

  lemma SplitRemainder(s: Bytes, n: nat, piece: Bytes, rest: Bytes)
    requires n <= |s| && s[n..] == piece + rest
    ensures n + |piece| <= |s| && s[n..n + |piece|] == piece && s[n + |piece|..] == rest
  {
    assert s[n..n + |piece|] == s[n..][..|piece|];
    assert s[n + |piece|..] == s[n..][|piece|..];
  }

  /* ----- Any number of pieces ----- */

  /** Every piece leaves a byte free, and what it leaves unread is quiet where it then lies. */
  predicate QuietThroughout(l: Layout, ms: seq<Message>, n: nat, chunks: seq<Bytes>)
    requires l.Valid() && AllFramable(ms)
    decreases |chunks|
  {
    chunks == []
    || (|chunks[0]| < l.Free()
        && var e := Settled(l, ms, n, chunks[0]);
           Quiet(e.mem, e.read, e.write) && QuietThroughout(e, ms, n + |chunks[0]|, chunks[1..]))
  }

  /** The whole rest of the stream came through. */
  predicate Delivers(r: Progress, ms: seq<Message>, n: nat)
    requires AllFramable(ms)
  {
    r.done && r.messages == ReceivedAll(ms[Whole(ms, n)..])
  }

  lemma ReceivedInTwoParts(ms: seq<Message>, n: nat, n': nat)
    requires AllFramable(ms) && n <= n'
    ensures ReceivedAll(Completed(ms, n, n')) + ReceivedAll(ms[Whole(ms, n')..]) == ReceivedAll(ms[Whole(ms, n)..])
  {
    hide Received;
  }

  lemma {:induction false} QuietRunDelivers(l: Layout, d: Bytes, ms: seq<Message>, n: nat, chunks: seq<Bytes>)
    requires l.Valid() && AllEncodable(ms)
    requires n <= |Stream(ms)| && Stream(ms)[n..] == Concat(chunks)
    requires Inert(d) && |d| <= 6 && l.Unread() == d + Leftover(ms, n)
    requires QuietThroughout(l, ms, n, chunks)
    ensures Askable(l, chunks)
    ensures Delivers(ReadRun(l, chunks), ms, n) && |ReadRun(l, chunks).layout.Unread()| == |d|
    decreases |chunks|
  {
    hide DecodeRun, Receive, Stream, Leftover, Whole, Inert, Encodable, Received, Residue, Settled, Quiet;
    if chunks == [] {
      WholeOfAll(ms);
    } else {
      var piece, n' := chunks[0], n + |chunks[0]|;
      SplitRemainder(Stream(ms), n, piece, Concat(chunks[1..]));
      ReadPiece(l, d, ms, n, piece);
      var e := Settled(l, ms, n, piece);
      UntouchedIffQuiet(e);
      QuietRunDelivers(e, Residue(d, Completed(ms, n, n')), ms, n', chunks[1..]);
      ReceivedInTwoParts(ms, n, n');
    }
  }

  /* ----- Piece by piece ----- */

  /** After every read, exactly the messages are returned whose frames it completes, and as many
      bytes stay unread as have arrived of the next frame. */
  predicate OnTime(l: Layout, ms: seq<Message>, n: nat, chunks: seq<Bytes>)
    requires l.Valid() && AllFramable(ms) && Askable(l, chunks)
    decreases |chunks|
  {
    chunks == []
    || var n', d := n + |chunks[0]|, ReadStep(l, chunks[0]);
       && d.outcome == Finished
       && d.messages == ReceivedAll(Completed(ms, n, n'))
       && |d.layout.Unread()| == |Leftover(ms, n')|
       && OnTime(d.layout, ms, n', chunks[1..])
  }

  /** However an encoded stream is cut into reads, and whatever bytes its messages hold: every read
      yields what it completes if and only if every read leaves a byte free and what it leaves of a
      frame is quiet where it lies. */
  lemma {:induction false} OnTimeIffQuiet(l: Layout, ms: seq<Message>, n: nat, chunks: seq<Bytes>)
    requires l.Valid() && l.write < |l.mem| && AllEncodable(ms) && Askable(l, chunks)
    requires n <= |Stream(ms)| && Stream(ms)[n..] == Concat(chunks) && l.Unread() == Leftover(ms, n)
    ensures OnTime(l, ms, n, chunks) <==> QuietThroughout(l, ms, n, chunks)
    decreases |chunks|
  {
    hide DecodeRun, Receive, Stream, Leftover, Whole, Encodable, Received, Settled, Quiet;
    if chunks != [] {
      var piece, n' := chunks[0], n + |chunks[0]|;
      SplitRemainder(Stream(ms), n, piece, Concat(chunks[1..]));
      if |piece| == l.Free() {
        LossIsNotOnTime(ms, n, piece);
      } else {
        PieceIsOnTimeIff(l, ms, n, piece);
        var e := Settled(l, ms, n, piece);
        if Quiet(e.mem, e.read, e.write) {
          OnTimeIffQuiet(e, ms, n', chunks[1..]);
        }
      }
    }
  }

  /** A lost piece completes a frame or makes the incomplete one longer. */
  lemma LossIsNotOnTime(ms: seq<Message>, n: nat, piece: Bytes)
    requires AllFramable(ms) && piece != []
    requires n + |piece| <= |Stream(ms)| && Stream(ms)[n..n + |piece|] == piece
    ensures Completed(ms, n, n + |piece|) == [] ==> |Leftover(ms, n + |piece|)| > |Leftover(ms, n)|
  {
    hide Leftover, Whole, Stream;
    PieceCompletesFrames(ms, n, piece);
    var k := Whole(ms, n);
    if Completed(ms, n, n + |piece|) == [] {
      assert ms[k..k] == [];
      StreamCons([]);
    }
  }

  lemma PieceIsOnTimeIff(l: Layout, ms: seq<Message>, n: nat, piece: Bytes)
    requires l.Valid() && AllEncodable(ms) && |piece| < l.Free()
    requires n + |piece| <= |Stream(ms)| && Stream(ms)[n..n + |piece|] == piece && l.Unread() == Leftover(ms, n)
    ensures var got, e, d := Completed(ms, n, n + |piece|), Settled(l, ms, n, piece), DecodeRun(Receive(l, piece));
            && e.Unread() == Leftover(ms, n + |piece|)
            && (Quiet(e.mem, e.read, e.write) ==> d == Decoded(Finished, ReceivedAll(got), e))
            && (d.outcome == Finished && d.messages == ReceivedAll(got) && |d.layout.Unread()| == |e.Unread()|
                ==> Quiet(e.mem, e.read, e.write))
  {
    hide DecodeRun, Receive, Stream, Leftover, Whole, Encodable, Received, Settled, Quiet, Residue;
    assert [] + Leftover(ms, n) == Leftover(ms, n);
    ReadPiece(l, [], ms, n, piece);
    var got, e := Completed(ms, n, n + |piece|), Settled(l, ms, n, piece);
    assert Residue([], got) + Leftover(ms, n + |piece|) == Leftover(ms, n + |piece|);
    UntouchedIffQuiet(e);
    var d := DecodeRun(e);
    if d.outcome == Finished && |d.layout.Unread()| == |e.Unread()| {
      SameLengthIsSame(e);
      FinishedIsQuiet(e);
    }
  }

  /* ----- In the end ----- */

  /** No marker at the end of a is followed by a byte at the beginning of b that would make its
      length negative. */
  predicate Joins(a: Bytes, b: Bytes) {
    a == [] || b == [] || a[|a| - 1] != START || b[0] < 128
  }

  /** No start marker is in front of a byte from 128 on, neither inside a piece nor where a piece
      follows an earlier one, should those between them be lost. */
  predicate Forward(u: Bytes, chunks: seq<Bytes>) {
    && NoNegativeLength(u)
    && (forall j :: 0 <= j < |chunks| ==> NoNegativeLength(chunks[j]) && Joins(u, chunks[j]))
    && forall i, j :: 0 <= i < j < |chunks| ==> Joins(chunks[i], chunks[j])
  }

  lemma ForwardReceives(u: Bytes, chunks: seq<Bytes>)
    requires Forward(u, chunks) && chunks != []
    ensures Forward(u + chunks[0], chunks[1..]) && Forward(u, chunks[1..])
  {
    var c, rest := chunks[0], chunks[1..];
    assert forall j :: 0 <= j < |rest| ==> rest[j] == chunks[j + 1];
  }

  lemma ForwardDrops(u: Bytes, t: Bytes, chunks: seq<Bytes>)
    requires Forward(u, chunks) && IsTail(t, u)
    ensures Forward(t, chunks)
  {
    assert forall k :: 0 <= k < |t| ==> t[k] == u[|u| - |t| + k];
  }

  /** What a read adds to the unread bytes, less what the decode after it drops. */
  lemma StepDrops(l: Layout, chunks: seq<Bytes>)
    requires l.Valid() && l.write < |l.mem| && chunks != [] && |chunks[0]| <= l.Free() && Forward(l.Unread(), chunks)
    requires ReadStep(l, chunks[0]).outcome == Finished
    ensures var d := ReadStep(l, chunks[0]);
            && LengthSum(d.messages) + |d.layout.Unread()| <= |l.Unread()| + |chunks[0]|
            && (|chunks[0]| == l.Free() ==>
                  LengthSum(d.messages) + |d.layout.Unread()| < |l.Unread()| + |chunks[0]|)
            && Forward(d.layout.Unread(), chunks[1..])
  {
    hide DecodeRun, Receive, Forward, NoNegativeLength;
    var u, full := l.Unread(), Receive(l, chunks[0]);
    ForwardReceives(u, chunks);
    if |chunks[0]| < l.Free() {
      assert NoNegativeLength(full.Unread()) by { ForwardIsForward(full.Unread(), chunks[1..]); }
      DecodedBytesAreDropped(full);
      ForwardDrops(full.Unread(), DecodeRun(full).layout.Unread(), chunks[1..]);
    }
  }

  lemma ForwardIsForward(u: Bytes, chunks: seq<Bytes>)
    requires Forward(u, chunks)
    ensures NoNegativeLength(u)
  {
  }

  /** A run drops at least as many bytes as the messages it returns were sent with. */
  lemma {:induction false} ReadBytesAreDropped(l: Layout, chunks: seq<Bytes>)
    requires l.Valid() && l.write < |l.mem| && Askable(l, chunks) && Forward(l.Unread(), chunks)
    requires ReadRun(l, chunks).done
    ensures var r := ReadRun(l, chunks);
            LengthSum(r.messages) + |r.layout.Unread()| <= |l.Unread()| + |Concat(chunks)|
    decreases |chunks|
  {
    hide ReadStep, Forward;
    if chunks != [] {
      StepDrops(l, chunks);
      var d := ReadStep(l, chunks[0]);
      ReadBytesAreDropped(d.layout, chunks[1..]);
      LengthSumSplit(d.messages, ReadRun(d.layout, chunks[1..]).messages);
    }
  }

  lemma {:induction false} StreamLength(ms: seq<Message>)
    requires AllFramable(ms)
    ensures LengthSum(ReceivedAll(ms)) == |Stream(ms)|
    decreases |ms|
  {
    hide Frame;
    StreamCons(ms);
    if ms != [] {
      StreamLength(ms[1..]);
      assert ReceivedAll(ms)[1..] == ReceivedAll(ms[1..]);
    }
  }

  lemma RemainingLength(ms: seq<Message>, n: nat)
    requires AllFramable(ms) && n <= |Stream(ms)|
    ensures |Stream(ms[Whole(ms, n)..])| == |Leftover(ms, n)| + |Stream(ms)| - n
  {
    hide Leftover, Whole, Stream;
    var k := Whole(ms, n);
    CutStream(ms, n);
    StreamSplit(ms, k, |ms|);
    assert ms[..|ms|] == ms && ms[k..|ms|] == ms[k..];
  }

  lemma FirstIsLonger(ms: seq<Message>, a: seq<Message>, b: seq<Message>)
    requires AllFramable(ms) && a != [] && a + b == ReceivedAll(ms)
    ensures ms != [] && LengthSum(a) >= PkLen(ms[0])
  {
    assert forall i :: 0 <= i < |a| ==> a[i] == (a + b)[i] == Received(ms[i]);
    LengthSumIsPositive(a[1..]);
  }

  lemma {:induction false} LengthSumIsPositive(a: seq<Message>)
    requires forall i :: 0 <= i < |a| ==> a[i].pkLen >= 0
    ensures LengthSum(a) >= 0
    decreases |a|
  {
    if a != [] {
      LengthSumIsPositive(a[1..]);
    }
  }

  /** The whole rest of the stream came through, and nothing is left. */
  predicate DeliversAll(r: Progress, ms: seq<Message>, n: nat)
    requires AllFramable(ms) && r.layout.Valid()
  {
    Delivers(r, ms, n) && r.layout.Unread() == []
  }

  /** Lost bytes are missing in the end. */
  lemma DeliveringRunLosesNothing(l: Layout, ms: seq<Message>, n: nat, chunks: seq<Bytes>)
    requires l.Valid() && l.write < |l.mem| && AllEncodable(ms) && chunks != []
    requires Askable(l, chunks) && Forward(l.Unread(), chunks)
    requires n <= |Stream(ms)| && Stream(ms)[n..] == Concat(chunks) && l.Unread() == Leftover(ms, n)
    requires DeliversAll(ReadRun(l, chunks), ms, n)
    ensures |chunks[0]| < l.Free()
  {
    hide ReadStep, Forward, Stream, Leftover, Whole, Encodable, Received;
    var d := ReadStep(l, chunks[0]);
    StepDrops(l, chunks);
    ReadBytesAreDropped(d.layout, chunks[1..]);
    LengthSumSplit(d.messages, ReadRun(d.layout, chunks[1..]).messages);
    StreamLength(ms[Whole(ms, n)..]);
    RemainingLength(ms, n);
  }

  /** If decode takes anything of an incomplete frame, the bytes are missing later on: the rest of
      the stream cannot come through any more. */
  lemma TakenBytesAreMissed(e: Layout, ms: seq<Message>, n: nat, rest: seq<Bytes>)
    requires e.Valid() && e.write < |e.mem| && AllEncodable(ms)
    requires n <= |Stream(ms)| && Stream(ms)[n..] == Concat(rest)
    requires e.Unread() == Leftover(ms, n) && Forward(e.Unread(), rest)
    requires DecodeRun(e).outcome == Finished && Askable(DecodeRun(e).layout, rest)
    requires var r := ReadRun(DecodeRun(e).layout, rest);
             r.done && r.layout.Unread() == []
             && DecodeRun(e).messages + r.messages == ReceivedAll(ms[Whole(ms, n)..])
    ensures DecodeRun(e) == Decoded(Finished, [], e)
  {
    hide DecodeRun, Received, Leftover, Whole, Stream, Encodable, ReadRun, Forward, Askable;
    var d, k, p := DecodeRun(e), Whole(ms, n), Leftover(ms, n);
    var r := ReadRun(d.layout, rest);
    ForwardIsForward(e.Unread(), rest);
    DecodedBytesAreDropped(e);
    ForwardDrops(e.Unread(), d.layout.Unread(), rest);
    ReadBytesAreDropped(d.layout, rest);
    LengthSumSplit(d.messages, r.messages);
    StreamLength(ms[k..]);
    RemainingLength(ms, n);
    assert |e.Unread()| - |d.layout.Unread()| == LengthSum(d.messages);
    if d.messages != [] {
      FirstIsLonger(ms[k..], d.messages, r.messages);
      LeftoverIsShort(ms, n);
      assert false;
    }
  }

  /** If everything comes through, the first piece has left an incomplete frame that decode does not
      touch, and the rest comes through from there. */
  lemma FirstPieceIsQuiet(l: Layout, ms: seq<Message>, n: nat, chunks: seq<Bytes>)
    requires l.Valid() && l.write < |l.mem| && AllEncodable(ms) && chunks != []
    requires Askable(l, chunks) && Forward(l.Unread(), chunks)
    requires n <= |Stream(ms)| && Stream(ms)[n..] == Concat(chunks) && l.Unread() == Leftover(ms, n)
    requires DeliversAll(ReadRun(l, chunks), ms, n)
    ensures |chunks[0]| < l.Free() && n + |chunks[0]| <= |Stream(ms)|
    ensures Stream(ms)[n + |chunks[0]|..] == Concat(chunks[1..])
    ensures var n', e := n + |chunks[0]|, Settled(l, ms, n, chunks[0]);
            && e.Unread() == Leftover(ms, n') && Forward(e.Unread(), chunks[1..])
            && DecodeRun(e) == Decoded(Finished, [], e)
            && Askable(e, chunks[1..]) && DeliversAll(ReadRun(e, chunks[1..]), ms, n')
  {
    hide DecodeRun, Stream, Leftover, Whole, Encodable, Received, Settled, Residue, ReadRun, Forward;
    var piece, n' := chunks[0], n + |chunks[0]|;
    DeliveringRunLosesNothing(l, ms, n, chunks);
    SplitRemainder(Stream(ms), n, piece, Concat(chunks[1..]));
    assert [] + Leftover(ms, n) == Leftover(ms, n);
    ReadPiece(l, [], ms, n, piece);
    var got, e := Completed(ms, n, n'), Settled(l, ms, n, piece);
    assert Residue([], got) + Leftover(ms, n') == Leftover(ms, n');
    LeftoverIsForward(l, ms, n, chunks);
    RunGoesOn(l, chunks, ReceivedAll(got), e);
    var d := DecodeRun(e);
    var r := ReadRun(d.layout, chunks[1..]);
    ReceivedInTwoParts(ms, n, n');
    StripFront(ReceivedAll(got), d.messages, r.messages, ReceivedAll(ms[Whole(ms, n')..]));
    TakenBytesAreMissed(e, ms, n', chunks[1..]);
  }

  lemma LeftoverIsForward(l: Layout, ms: seq<Message>, n: nat, chunks: seq<Bytes>)
    requires AllFramable(ms) && chunks != [] && l.Valid()
    requires l.Unread() == Leftover(ms, n) && Forward(l.Unread(), chunks)
    requires n + |chunks[0]| <= |Stream(ms)| && Stream(ms)[n..n + |chunks[0]|] == chunks[0]
    ensures Forward(Leftover(ms, n + |chunks[0]|), chunks[1..])
  {
    hide Stream, Leftover, Whole, Forward;
    var n' := n + |chunks[0]|;
    ForwardReceives(l.Unread(), chunks);
    PieceCompletesFrames(ms, n, chunks[0]);
    var u, p := l.Unread() + chunks[0], Leftover(ms, n');
    assert p == u[|u| - |p|..];
    ForwardDrops(u, p, chunks[1..]);
  }

  lemma RunGoesOn(l: Layout, chunks: seq<Bytes>, got: seq<Message>, e: Layout)
    requires l.Valid() && e.Valid() && chunks != [] && |chunks[0]| < l.Free()
    requires Askable(l, chunks) && ReadRun(l, chunks).done
    requires DecodeRun(Receive(l, chunks[0])) == Prepend(got, DecodeRun(e))
    ensures var d := DecodeRun(e);
            && d.outcome == Finished && Askable(d.layout, chunks[1..])
            && var r := ReadRun(d.layout, chunks[1..]);
            && r.done
            && ReadRun(l, chunks).messages == got + d.messages + r.messages
            && ReadRun(l, chunks).layout == r.layout
  {
    hide DecodeRun, Receive;
  }

  lemma {:induction false} DeliveringRunIsQuiet(l: Layout, ms: seq<Message>, n: nat, chunks: seq<Bytes>)
    requires l.Valid() && l.write < |l.mem| && AllEncodable(ms)
    requires Askable(l, chunks) && Forward(l.Unread(), chunks)
    requires n <= |Stream(ms)| && Stream(ms)[n..] == Concat(chunks) && l.Unread() == Leftover(ms, n)
    requires DeliversAll(ReadRun(l, chunks), ms, n)
    ensures QuietThroughout(l, ms, n, chunks)
    decreases |chunks|
  {
    hide DecodeRun, Stream, Leftover, Encodable, Settled, Quiet, ReadRun, DeliversAll, Askable, Forward;
    if chunks != [] {
      FirstPieceIsQuiet(l, ms, n, chunks);
      var e := Settled(l, ms, n, chunks[0]);
      UntouchedIffQuiet(e);
      DeliveringRunIsQuiet(e, ms, n + |chunks[0]|, chunks[1..]);
    }
  }

  lemma StripFront(a: seq<Message>, b: seq<Message>, c: seq<Message>, rest: seq<Message>)
    requires a + b + c == a + rest
    ensures b + c == rest
  {
    assert b + c == (a + b + c)[|a|..];
    assert rest == (a + rest)[|a|..];
  }

  /** However an encoded stream is cut into reads: reading and decoding piece by piece gives all of
      its messages in order, and leaves nothing, if every read leaves a byte free and what it leaves
      of a frame is quiet where it lies. If no start marker is in front of a byte that would make its
      length negative, it does so only then. */
  lemma ChunkingWorksIff(l: Layout, ms: seq<Message>, chunks: seq<Bytes>)
    requires l.Valid() && l.write < |l.mem| && l.Unread() == [] && Askable(l, chunks)
    requires AllEncodable(ms) && Concat(chunks) == Stream(ms)
    ensures QuietThroughout(l, ms, 0, chunks) ==> DeliversAll(ReadRun(l, chunks), ms, 0)
    ensures Forward([], chunks) ==>
              (DeliversAll(ReadRun(l, chunks), ms, 0) <==> QuietThroughout(l, ms, 0, chunks))
  {
    hide ReadRun, QuietThroughout, Stream, Forward, Askable;
    assert Leftover(ms, 0) == [];
    assert [] + Leftover(ms, 0) == [];
    if QuietThroughout(l, ms, 0, chunks) {
      QuietRunDelivers(l, [], ms, 0, chunks);
    }
    if Forward([], chunks) && DeliversAll(ReadRun(l, chunks), ms, 0) {
      DeliveringRunIsQuiet(l, ms, 0, chunks);
    }
  }

  /** Such a run returns what one decode of the whole stream returns. */
  lemma ChunkingIndependence(l: Layout, ms: seq<Message>, chunks: seq<Bytes>, whole: Layout)
    requires l.Valid() && l.write < |l.mem| && l.Unread() == [] && Askable(l, chunks)
    requires AllEncodable(ms) && Concat(chunks) == Stream(ms)
    requires whole.Valid() && whole.Unread() == Stream(ms) && whole.write < |whole.mem|
    ensures DecodeRun(whole).outcome == Finished
    ensures var r := ReadRun(l, chunks);
            var same := r.done && r.messages == DecodeRun(whole).messages && r.layout.Unread() == [];
            && (QuietThroughout(l, ms, 0, chunks) ==> same)
            && (Forward([], chunks) ==> (same <==> QuietThroughout(l, ms, 0, chunks)))
  {
    hide DecodeRun, ReadRun, QuietThroughout, Stream, Forward, Askable;
    ChunkingWorksIff(l, ms, chunks);
    assert ms[0..] == ms && Whole(ms, 0) == 0;
    assert Stream(ms) == [] + Stream(ms) + [];
    DecodeStream(whole, [], ms, []);
  }

  /* ----- Conditions on the cuts alone ----- */

  /** Every piece leaves a byte free, if the frames completed so far have been dropped. */
  predicate ShortThroughout(l: Layout, ms: seq<Message>, n: nat, chunks: seq<Bytes>)
    requires l.Valid() && AllFramable(ms)
    decreases |chunks|
  {
    chunks == []
    || (|chunks[0]| < l.Free() && ShortThroughout(Settled(l, ms, n, chunks[0]), ms, n + |chunks[0]|, chunks[1..]))
  }

  /** Every incomplete frame that the cuts leave satisfies q. */
  predicate EveryLeftover(ms: seq<Message>, n: nat, chunks: seq<Bytes>, q: Bytes -> bool)
    requires AllFramable(ms)
    decreases |chunks|
  {
    chunks == []
    || (q(Leftover(ms, n + |chunks[0]|)) && EveryLeftover(ms, n + |chunks[0]|, chunks[1..], q))
  }

  /** From a fresh buffer, for cuts that leave no second marker in a frame, where they are decides
      alone: if every piece leaves a byte free, the stream comes through if and only if every cut
      leaves at most one byte of a frame, or at least five, or a part of the length word that is not
      zero. If a piece does not leave a byte free, the stream does not come through, unless what is
      glued together behind it steps back. */
  lemma CutsDecide(cap: nat, ms: seq<Message>, chunks: seq<Bytes>)
    requires AllEncodable(ms) && Concat(chunks) == Stream(ms)
    requires 5 <= cap <= INT_MAX && forall m :: m in ms ==> cap + PkLen(m) <= INT_MAX
    requires EveryLeftover(ms, 0, chunks, Unmarked) && Askable(Fresh(cap), chunks)
    ensures ShortThroughout(Fresh(cap), ms, 0, chunks) || Forward([], chunks) ==>
              (DeliversAll(ReadRun(Fresh(cap), chunks), ms, 0)
               <==> ShortThroughout(Fresh(cap), ms, 0, chunks) && EveryLeftover(ms, 0, chunks, ShowsLength))
  {
    hide ReadRun, QuietThroughout, ShortThroughout, EveryLeftover, Stream, Clean, Askable, Forward;
    var l := Fresh(cap);
    FreshIsClean(cap);
    assert l.Unread() == [] == Leftover(ms, 0);
    ChunkingWorksIff(l, ms, chunks);
    CleanCutsDecide(l, ms, 0, chunks);
    if ShortThroughout(l, ms, 0, chunks) && ReadRun(l, chunks).done {
      ReturningRunShowsLength(l, ms, 0, chunks);
    }
  }

  lemma {:induction false} ReturningRunShowsLength(l: Layout, ms: seq<Message>, n: nat, chunks: seq<Bytes>)
    requires l.Valid() && Clean(l) && 5 <= |l.mem| && AllEncodable(ms)
    requires n <= |Stream(ms)| && Stream(ms)[n..] == Concat(chunks) && l.Unread() == Leftover(ms, n)
    requires forall m :: m in ms ==> |l.mem| + PkLen(m) <= INT_MAX
    requires EveryLeftover(ms, n, chunks, Unmarked) && ShortThroughout(l, ms, n, chunks)
    requires Askable(l, chunks) && ReadRun(l, chunks).done
    ensures EveryLeftover(ms, n, chunks, ShowsLength)
    decreases |chunks|
  {
    hide Clean, Stream, Leftover, Whole, Encodable, Settled, Quiet, ShowsLength, Unmarked, DecodeRun, Receive, Received;
    if chunks != [] {
      var piece, n' := chunks[0], n + |chunks[0]|;
      SplitRemainder(Stream(ms), n, piece, Concat(chunks[1..]));
      var e := Settled(l, ms, n, piece);
      SettledIsClean(l, ms, n, piece);
      assert [] + Leftover(ms, n) == Leftover(ms, n);
      ReadPiece(l, [], ms, n, piece);
      ReturningShowsLength(e, ms, n');
      LeftoverQuietIff(e, ms, n');
      UntouchedIffQuiet(e);
      ReturningRunShowsLength(e, ms, n', chunks[1..]);
    }
  }

  lemma ReturningShowsLength(e: Layout, ms: seq<Message>, n: nat)
    requires Clean(e) && e.Valid() && 5 <= |e.mem| && AllFramable(ms) && e.Unread() == Leftover(ms, n)
    requires DecodeRun(e).outcome == Finished
    ensures ShowsLength(Leftover(ms, n))
  {
    hide Clean, Leftover, Whole, Frame, DecodeRun;
    LeftoverIsShort(ms, n);
    if !ShowsLength(Leftover(ms, n)) {
      HiddenLengthNeverReturns(e, ms[Whole(ms, n)], |Leftover(ms, n)|);
    }
  }

  lemma {:induction false} CleanCutsDecide(l: Layout, ms: seq<Message>, n: nat, chunks: seq<Bytes>)
    requires l.Valid() && Clean(l) && 5 <= |l.mem| && AllEncodable(ms)
    requires n <= |Stream(ms)| && Stream(ms)[n..] == Concat(chunks) && l.Unread() == Leftover(ms, n)
    requires forall m :: m in ms ==> |l.mem| + PkLen(m) <= INT_MAX
    requires EveryLeftover(ms, n, chunks, Unmarked)
    ensures QuietThroughout(l, ms, n, chunks)
            <==> ShortThroughout(l, ms, n, chunks) && EveryLeftover(ms, n, chunks, ShowsLength)
    decreases |chunks|
  {
    hide Clean, Stream, Leftover, Whole, Encodable, Settled, Quiet, ShowsLength, Unmarked, DecodeRun, Receive, Received;
    if chunks != [] && |chunks[0]| < l.Free() {
      var piece, n' := chunks[0], n + |chunks[0]|;
      SplitRemainder(Stream(ms), n, piece, Concat(chunks[1..]));
      SettledIsClean(l, ms, n, piece);
      LeftoverQuietIff(Settled(l, ms, n, piece), ms, n');
      CleanCutsDecide(Settled(l, ms, n, piece), ms, n', chunks[1..]);
    }
  }

  lemma SettledIsClean(l: Layout, ms: seq<Message>, n: nat, piece: Bytes)
    requires l.Valid() && Clean(l) && AllEncodable(ms) && |piece| < l.Free()
    requires n + |piece| <= |Stream(ms)| && Stream(ms)[n..n + |piece|] == piece && l.Unread() == Leftover(ms, n)
    ensures var e := Settled(l, ms, n, piece); Clean(e) && e.Unread() == Leftover(ms, n + |piece|)
  {
    hide Clean, Stream, Leftover, Whole, Encodable, DecodeRun, Receive, Received, SkipFrames;
    var got, p := Completed(ms, n, n + |piece|), Leftover(ms, n + |piece|);
    assert [] + Leftover(ms, n) == Leftover(ms, n);
    ReadPiece(l, [], ms, n, piece);
    assert Residue([], got) + p == p;
    ReceiveKeepsClean(l, piece);
    SkipKeepsClean(Receive(l, piece), got, p);
  }

  lemma LeftoverQuietIff(e: Layout, ms: seq<Message>, n: nat)
    requires Clean(e) && e.Valid() && 5 <= |e.mem| && AllFramable(ms) && e.Unread() == Leftover(ms, n)
    requires forall m :: m in ms ==> |e.mem| + PkLen(m) <= INT_MAX
    requires Unmarked(Leftover(ms, n))
    ensures Quiet(e.mem, e.read, e.write) <==> ShowsLength(Leftover(ms, n))
  {
    hide Clean, Leftover, Whole, Frame, Unmarked, Quiet;
    LeftoverIsShort(ms, n);
    if Whole(ms, n) < |ms| {
      PrefixQuietIff(e, ms[Whole(ms, n)], |Leftover(ms, n)|);
    } else {
      UntouchedIffQuiet(e);
      NothingIsQuiet(e);
    }
  }

  lemma NothingIsQuiet(e: Layout)
    requires e.Valid() && e.Unread() == []
    ensures Quiet(e.mem, e.read, e.write) && ShowsLength([])
  {
  }

  /** In any buffer, cuts with at most one byte of a frame or at least five, and no second marker,
      are quiet. */
  predicate WellCut(p: Bytes) {
    (|p| <= 1 || 5 <= |p|) && Unmarked(p)
  }

  lemma {:induction false} WellCutsAreQuiet(l: Layout, ms: seq<Message>, n: nat, chunks: seq<Bytes>)
    requires l.Valid() && AllEncodable(ms)
    requires n <= |Stream(ms)| && Stream(ms)[n..] == Concat(chunks) && l.Unread() == Leftover(ms, n)
    requires forall m :: m in ms ==> |l.mem| + PkLen(m) <= INT_MAX
    requires ShortThroughout(l, ms, n, chunks) && EveryLeftover(ms, n, chunks, WellCut)
    ensures QuietThroughout(l, ms, n, chunks)
    decreases |chunks|
  {
    hide Stream, Leftover, Whole, Encodable, Quiet, WellCut, DecodeRun, Receive, Received, Settled;
    if chunks != [] {
      var piece, n' := chunks[0], n + |chunks[0]|;
      SplitRemainder(Stream(ms), n, piece, Concat(chunks[1..]));
      assert [] + Leftover(ms, n) == Leftover(ms, n);
      ReadPiece(l, [], ms, n, piece);
      var e := Settled(l, ms, n, piece);
      assert e.Unread() == Leftover(ms, n') by {
        assert Residue([], Completed(ms, n, n')) + Leftover(ms, n') == Leftover(ms, n');
      }
      WellCutLeftoverIsQuiet(e, ms, n');
      WellCutsAreQuiet(e, ms, n', chunks[1..]);
    }
  }

  lemma WellCutLeftoverIsQuiet(e: Layout, ms: seq<Message>, n: nat)
    requires e.Valid() && AllFramable(ms) && e.Unread() == Leftover(ms, n) && WellCut(Leftover(ms, n))
    requires forall m :: m in ms ==> |e.mem| + PkLen(m) <= INT_MAX
    ensures Quiet(e.mem, e.read, e.write)
  {
    hide Leftover, Whole, Frame, Unmarked, Quiet, Patient;
    var p := Leftover(ms, n);
    LeftoverIsShort(ms, n);
    if Whole(ms, n) < |ms| {
      PrefixIsPatient(ms[Whole(ms, n)], |p|, |e.mem|);
      PatientIsQuiet(e.mem, e.read, p);
      ScanFindsNothingIffQuiet(e.mem, e.read, e.write);
    } else {
      NothingIsQuiet(e);
    }
  }
}
