/** The beginning of a frame whose rest has not arrived: for which prefixes the decoder waits, and
    what it does with the others. */
module IncompleteFrames {
  import opened Bytes
  import opened TcpBuffers
  import opened ProtobufFrames
  import opened ProtobufCoder
  import opened StreamDecoding

  /* ----- What a sender can check ----- */

  /** No start marker but the first, except perhaps as the last byte. */
  predicate Unmarked(p: Bytes) {
    forall i :: 1 <= i < |p| - 1 ==> p[i] != START
  }

  /** So little has arrived that the length is not looked at, or all of the length, or a part of it
      that is not zero. */
  predicate ShowsLength(p: Bytes) {
    |p| <= 1 || 5 <= |p| || p[1..] != Zeros(|p| - 1)
  }

  /** A prefix with at most one byte, or at least five and no second marker, is waited for wherever
      it lies. */
  lemma PrefixIsPatient(m: Message, k: nat, cap: nat)
    requires Framable(m) && cap + PkLen(m) <= INT_MAX && k < PkLen(m)
    requires k <= 1 || (5 <= k && Unmarked(Frame(m)[..k]))
    ensures Patient(Frame(m)[..k], cap)
  {
    if 5 <= k {
      var p := Frame(m)[..k];
      FrameMarkers(Frame(m), 0, m);
      assert p[1..5] == Frame(m)[1..5];
    }
  }

  /* ----- Buffers as a connection has them ----- */

  /** The vector is zero behind the write index, and the read index is at the front or behind the
      end marker of a frame. */
  predicate Clean(l: Layout) {
    l.Tidy()
    && (forall k :: l.write <= k < |l.mem| ==> l.mem[k] == 0)
    && (l.read == 0 || l.mem[l.read - 1] == END)
  }

  lemma FreshIsClean(cap: nat)
    requires cap <= INT_MAX
    ensures Clean(Fresh(cap))
  {
  }

  lemma ReceiveKeepsClean(l: Layout, data: Bytes)
    requires Clean(l) && |data| < l.Free()
    ensures Clean(Receive(l, data))
  {
    var f := l.(mem := Splice(l.mem, l.write, data));
    assert forall k :: 0 <= k < l.write ==> f.mem[k] == l.mem[k];
    assert forall k :: l.write + |data| <= k < |f.mem| ==> f.mem[k] == l.mem[k];
  }

  lemma AdvanceKeepsClean(l: Layout, m: Message)
    requires Clean(l) && FrameAt(l.mem, l.read, m) && l.read + PkLen(m) <= l.write
    ensures CanMoveRead(l, PkLen(m)) && Clean(MoveRead(l, PkLen(m)))
  {
    hide Frame;
    FrameMarkers(l.mem, l.read, m);
  }

  lemma {:induction false} SkipKeepsClean(l: Layout, ms: seq<Message>, p: Bytes)
    requires Clean(l) && Holds(l, [], ms, p) && (ms != [] ==> l.write - |p| < |l.mem|)
    ensures Clean(SkipFrames(l, ms))
    decreases |ms|
  {
    hide Clean, MoveRead, Frame, Stream;
    StreamCons(ms);
    if ms != [] {
      var f, rest := Frame(ms[0]), Stream(ms[1..]);
      assert [] + (f + rest) + p == f + (rest + p);
      HasSplit(l.mem, l.read, f, rest + p);
      AdvanceKeepsClean(l, ms[0]) by { assert l.Tidy() by { CleanIsTidy(l); } }
      AdvanceKeepsStream(l, [], ms, p);
      assert f[PkLen(ms[0])..] == [];
      SkipKeepsClean(MoveRead(l, PkLen(ms[0])), ms[1..], p);
    }
  }

  lemma CleanIsTidy(l: Layout)
    requires Clean(l)
    ensures l.Tidy()
  {
  }

  /* ----- Exactly which prefixes are waited for ----- */

  /** The length word of a frame cut off behind its first bytes and filled up with zeros. */
  lemma TruncatedLength(x: nat, j: nat)
    requires x <= INT_MAX && 1 <= j <= 3
    ensures var w := EncodeInt32(x);
            var n := DecodeInt32(w[..j] + Zeros(4 - j));
            && 0 <= n <= x
            && (n == 0 <==> w[..j] == Zeros(j))
            && (n != 0 ==> 256 <= n)
  {
    var w := EncodeInt32(x);
    Int32RoundTrip(x);
    var t := w[..j] + Zeros(4 - j);
    assert t[0] == w[0] && t[3] == 0;
    assert t[1] == if j >= 2 then w[1] else 0;
    assert t[2] == if j >= 3 then w[2] else 0;
    assert w[0] < 128;
  }

  /** In a clean buffer, a proper prefix of a frame without a second marker is waited for if and only
      if it shows its length. */
  lemma PrefixQuietIff(l: Layout, m: Message, k: nat)
    requires Clean(l) && 5 <= |l.mem| && Framable(m) && |l.mem| + PkLen(m) <= INT_MAX && k < PkLen(m)
    requires l.Unread() == Frame(m)[..k] && Unmarked(Frame(m)[..k])
    ensures Quiet(l.mem, l.read, l.write) <==> ShowsLength(Frame(m)[..k])
  {
    hide Frame, Quiet, Patient, Unmarked, Clean;
    CleanIsTidy(l);
    var p := Frame(m)[..k];
    if k <= 1 || 5 <= k {
      PrefixIsPatient(m, k, |l.mem|);
      PatientIsQuiet(l.mem, l.read, p);
      ScanFindsNothingIffQuiet(l.mem, l.read, l.write);
    } else {
      ShortPrefixQuietIff(l, m, k);
    }
  }

  lemma ShortPrefixQuietIff(l: Layout, m: Message, k: nat)
    requires Clean(l) && 5 <= |l.mem| && Framable(m) && |l.mem| + PkLen(m) <= INT_MAX && 2 <= k <= 4
    requires l.Unread() == Frame(m)[..k] && Unmarked(Frame(m)[..k])
    ensures Quiet(l.mem, l.read, l.write) <==> ShowsLength(Frame(m)[..k])
  {
    hide Frame, EncodeInt32, DecodeInt32, Quiet;
    var r, p, s := l.read, Frame(m)[..k], EncodeInt32(PkLen(m))[..k - 1];
    FrameBegins(m, k);
    TruncatedLength(PkLen(m), k - 1);
    ZerosFillWord(l, s);
    assert l.mem[r] == l.Unread()[0];
    assert forall i :: r < i < r + k - 1 ==> l.mem[i] == l.Unread()[i - r];
    OnlyMarkerDecides(l.mem, r, l.write);
    assert p[1..] == s;
  }

  /** If the first of at least two bytes is the only marker before the last, it decides alone. */
  lemma OnlyMarkerDecides(mem: Bytes, from: nat, write: nat)
    requires from + 2 <= write <= |mem| && mem[from] == START
    requires forall i :: from < i < write - 1 ==> mem[i] != START
    requires from + 5 <= |mem|
    ensures var n := DecodeInt32(mem[from + 1..from + 5]);
            Quiet(mem, from, write)
            <==> from + n <= INT_MAX && (from + n - 1 >= write || (0 <= from + n - 1 && mem[from + n - 1] != END))
  {
    hide DecodeInt32;
  }

  lemma ZerosFillWord(l: Layout, s: Bytes)
    requires Clean(l) && 5 <= |l.mem| && |s| <= 3 && l.Unread() == [START] + s
    ensures l.read + 5 <= |l.mem| && l.mem[l.read + 1..l.read + 5] == s + Zeros(4 - |s|)
  {
    assert forall i :: 0 <= i < |s| ==> l.mem[l.read + 1 + i] == l.Unread()[i + 1] == s[i];
  }

  lemma FrameBegins(m: Message, k: nat)
    requires Framable(m) && 1 <= k <= 5
    ensures Frame(m)[..k] == [START] + EncodeInt32(PkLen(m))[..k - 1]
  {
    hide Field, EncodeInt32;
    assert Frame(m)[..k] == Header(m)[..k];
  }

  /* ----- What happens to the others ----- */

  /** Bytes without a marker, then a marker in front of a length word of zero: the announced end is
      the byte before the marker. If there is none the access is out of bounds, and if it is an end
      marker the loop makes no progress. */
  lemma ZeroLengthWord(l: Layout, t: Bytes)
    requires l.Tidy() && START !in t && t <= l.Unread()
    requires var at := l.read + |t|;
             && at + 5 <= |l.mem| && at + 2 <= l.write
             && l.mem[at] == START && l.mem[at + 1..at + 5] == Zeros(4)
    ensures var at := l.read + |t|;
            && (at == 0 ==> DecodeRun(l).outcome == Faulted)
            && (at > 0 && l.mem[at - 1] == END ==> DecodeRun(l) == Decoded(NoProgress, [], l))
  {
    hide DecodeRun, DecodeRound, ScanFrom, ProbeAt, Inert, DecodeInt32;
    var at := l.read + |t|;
    MarkerFreeIsInert(t);
    FrontOfUnread(l, |t|);
    InertPasses(l.mem, l.read, t, l.write);
    ZeroLengthProbe(l.mem, at, l.write);
    if at == 0 || l.mem[at - 1] == END {
      ScanStopsAt(l.mem, at, l.write);
    }
    ZeroLengthRound(l, at);
    RunUnfolds(l);
  }

  lemma FrontOfUnread(l: Layout, k: nat)
    requires l.Valid() && k <= |l.Unread()|
    ensures l.mem[l.read..l.read + k] == l.Unread()[..k]
  {
  }

  lemma ScanStopsAt(mem: Bytes, i: nat, write: nat)
    requires i < write <= |mem| && ProbeAt(mem, i, write) != Pass
    ensures ScanFrom(mem, i, write) == match ProbeAt(mem, i, write)
                                       case Hit(end, pkLen) => Match(i, end, pkLen)
                                       case _ => OutOfBounds
  {
    hide ProbeAt;
  }

  lemma ZeroLengthRound(l: Layout, at: nat)
    requires l.Tidy() && 3 <= |l.mem|
    ensures ScanFrom(l.mem, l.read, l.write) == OutOfBounds ==> DecodeRound(l) == Stop(Decoded(Faulted, [], l))
    ensures at > 0 && ScanFrom(l.mem, l.read, l.write) == Match(at, at - 1, 0) ==>
              DecodeRound(l) == Stop(Decoded(NoProgress, [], l))
  {
    hide ScanFrom, MoveRead, ParseFrame;
    if at > 0 && ScanFrom(l.mem, l.read, l.write) == Match(at, at - 1, 0) {
      RejectedOutright(l.mem, at, at - 1, 0);
      MoveByNothing(l);
    }
  }

  lemma ZeroLengthProbe(mem: Bytes, at: nat, write: nat)
    requires at + 5 <= |mem| <= INT_MAX && at + 2 <= write <= |mem|
    requires mem[at] == START && mem[at + 1..at + 5] == Zeros(4)
    ensures at == 0 ==> ProbeAt(mem, at, write) == Fault
    ensures at > 0 && mem[at - 1] == END ==> ProbeAt(mem, at, write) == Hit(at - 1, 0)
  {
    assert DecodeInt32(mem[at + 1..at + 5]) == 0;
  }

  lemma RejectedOutright(mem: Bytes, start: nat, end: int, pkLen: int)
    requires end <= start + 5
    ensures ParseFrame(mem, start, end, pkLen) == Rejected
  {
  }

  lemma MoveByNothing(l: Layout)
    requires l.Tidy() && 3 <= |l.mem|
    ensures CanMoveRead(l, 0) && MoveRead(l, 0) == l
  {
  }

  /** A buffer that has received one frame and the first two bytes of another waits for the rest if
      and only if that other frame has 2^24 bytes or more. Otherwise it scans the two bytes for
      ever, or, if dropping the first frame has moved them to the front, reads before the vector. */
  lemma TwoBytesStallIff(cap: nat, m: Message, next: Message)
    requires Encodable(m) && Framable(next) && PkLen(m) + 2 < cap && cap + PkLen(next) <= INT_MAX
    ensures var data := Frame(m) + Frame(next)[..2];
            var l := Receive(Fresh(cap), data);
            && l.Unread() == data
            && DecodeRun(l).outcome == if 0x100_0000 <= PkLen(next) then Finished
                                       else if PkLen(m) < cap / 3 then NoProgress
                                       else Faulted
  {
    hide DecodeRun, Frame, Fits, Clean, SkipFrames, Quiet, Stream, MoveWrite;
    var p := Frame(next)[..2];
    var data := Frame(m) + p;
    var l := Receive(Fresh(cap), data);
    FreshIsClean(cap);
    ReceiveKeepsClean(Fresh(cap), data);
    StreamCons([m]);
    StreamCons([]);
    assert [] + (Frame(m) + []) + p == data;
    DecodeStreamExact(l, [], [m], p);
    SkipKeepsClean(l, [m], p);
    var e := SkipFrames(l, [m]);
    assert e.Unread() == p by { assert Residue([], [m]) + p == p; }
    ReceivedAtFront(cap, data);
    ReadAfterOne(l, m);
    TwoBytesDecide(e, next);
  }

  lemma TwoBytesDecide(e: Layout, next: Message)
    requires Clean(e) && 5 <= |e.mem| && Framable(next) && |e.mem| + PkLen(next) <= INT_MAX
    requires e.Unread() == Frame(next)[..2]
    ensures DecodeRun(e).outcome == if 0x100_0000 <= PkLen(next) then Finished
                                    else if e.read > 0 then NoProgress
                                    else Faulted
  {
    hide DecodeRun, Frame, Clean, Quiet, ShowsLength, Unmarked;
    CleanIsTidy(e);
    TwoBytesShowLengthIff(next);
    PrefixQuietIff(e, next, 2);
    UntouchedIffQuiet(e);
    if PkLen(next) < 0x100_0000 {
      ZeroLengthPrefix(e, 1);
    }
  }

  lemma TwoBytesShowLengthIff(m: Message)
    requires Framable(m)
    ensures ShowsLength(Frame(m)[..2]) <==> 0x100_0000 <= PkLen(m)
    ensures Unmarked(Frame(m)[..2])
    ensures PkLen(m) < 0x100_0000 ==> Frame(m)[..2] == [START] + Zeros(1)
  {
    hide Frame;
    FrameBegins(m, 2);
    var p := Frame(m)[..2];
    assert p[1..] == EncodeInt32(PkLen(m))[..1];
    assert EncodeInt32(PkLen(m))[0] == 0 <==> PkLen(m) < 0x100_0000;
    assert p[1..] == Zeros(1) <==> p[1] == 0;
  }

  lemma ReceivedAtFront(cap: nat, data: Bytes)
    requires |data| < cap <= INT_MAX && 3 <= cap
    ensures Receive(Fresh(cap), data).read == 0
  {
  }

  lemma ReadAfterOne(l: Layout, m: Message)
    requires l.Valid() && l.read == 0 && PkLen(m) <= l.write && PkLen(m) < |l.mem|
    ensures SkipFrames(l, [m]).read == if PkLen(m) < |l.mem| / 3 then PkLen(m) else 0
  {
    assert SkipFrames(l, [m]) == MoveRead(l, PkLen(m));
  }

  /** A part of the length word that is zero is never got past. */
  lemma ZeroLengthPrefix(l: Layout, k: nat)
    requires Clean(l) && 5 <= |l.mem| && 1 <= k <= 3 && l.Unread() == [START] + Zeros(k)
    ensures DecodeRun(l).outcome == if l.read == 0 then Faulted else NoProgress
  {
    hide DecodeRun;
    ZerosFillWord(l, Zeros(k));
    assert Zeros(k) + Zeros(4 - k) == Zeros(4);
    assert l.mem[l.read] == l.Unread()[0];
    ZeroLengthWord(l, []);
  }

  /** In a clean buffer, decode does not return from a beginning of a frame that hides its length. */
  lemma HiddenLengthNeverReturns(l: Layout, m: Message, k: nat)
    requires Clean(l) && 5 <= |l.mem| && Framable(m) && k < PkLen(m) && l.Unread() == Frame(m)[..k]
    requires !ShowsLength(Frame(m)[..k])
    ensures DecodeRun(l).outcome != Finished
  {
    hide DecodeRun, Clean, Frame, EncodeInt32;
    FrameBegins(m, k);
    var p := Frame(m)[..k];
    assert p == [p[0]] + p[1..];
    ZeroLengthPrefix(l, k - 1);
  }
}
