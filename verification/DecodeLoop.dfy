/** The decode loop against its own rounds: DecodeRun, which is a function and so always has a
    value, says exactly what the source's loop does, which need not end. */
module DecodeLoops {
  import opened Bytes
  import opened TcpBuffers
  import opened ProtobufFrames
  import opened ProtobufCoder

  /** The first k rounds of the source's loop; None if it ends before. */
  function Rounds(l: Layout, k: nat): (r: Option<Stage>)
    requires l.Valid()
    ensures r.Some? ==> r.value.layout.Valid()
    decreases k
  {
    if k == 0 then Some(Stage([], l))
    else
      var first := OneRound(l);
      if first.None? then None else After(first.value.messages, Rounds(first.value.layout, k - 1))
  }

  function After(got: seq<Message>, r: Option<Stage>): Option<Stage> {
    if r.None? then None else Some(Stage(got + r.value.messages, r.value.layout))
  }

  /** The loop comes to a scan that finds nothing, and returns. */
  ghost predicate Returns(l: Layout, messages: seq<Message>, e: Layout)
    requires l.Valid()
  {
    e.Valid() && ScanFrom(e.mem, e.read, e.write) == NoFrame
    && exists k: nat :: Rounds(l, k) == Some(Stage(messages, e))
  }

  /** Every number of rounds is followed by another one. */
  ghost predicate Endless(l: Layout)
    requires l.Valid()
  {
    forall k: nat :: Rounds(l, k).Some?
  }

  lemma {:induction false} RoundsAdd(l: Layout, j: nat, k: nat)
    requires l.Valid() && Rounds(l, j).Some?
    ensures Rounds(l, j + k) == After(Rounds(l, j).value.messages, Rounds(Rounds(l, j).value.layout, k))
    decreases j
  {
    hide OneRound;
    if j == 0 {
      assert Rounds(l, k).Some? ==> [] + Rounds(l, k).value.messages == Rounds(l, k).value.messages;
    } else {
      var first := OneRound(l).value;
      RoundsAdd(first.layout, j - 1, k);
      var mid := Rounds(first.layout, j - 1).value;
      var last := Rounds(mid.layout, k);
      if last.Some? {
        assert first.messages + (mid.messages + last.value.messages)
            == first.messages + mid.messages + last.value.messages;
      }
    }
  }

  lemma {:induction false} RoundsAreNested(l: Layout, j: nat, k: nat)
    requires l.Valid() && j <= k && Rounds(l, k).Some?
    ensures Rounds(l, j).Some?
    decreases j
  {
    hide OneRound;
    if j > 0 {
      RoundsAreNested(OneRound(l).value.layout, j - 1, k - 1);
    }
  }

  /** k rounds bring the loop to where r says that it is, and why. */
  predicate Explains(l: Layout, k: nat, r: Decoded)
    requires l.Valid() && r.layout.Valid()
  {
    match r.outcome
    case Finished =>
      Rounds(l, k) == Some(Stage(r.messages, r.layout))
      && ScanFrom(r.layout.mem, r.layout.read, r.layout.write) == NoFrame
    case Faulted =>
      Rounds(l, k).Some? && Rounds(l, k + 1).None?
      && var e := Rounds(l, k).value.layout; ScanFrom(e.mem, e.read, e.write) != NoFrame
    case NoProgress =>
      Rounds(l, k) == Some(Stage(r.messages, r.layout))
      && (l.Tidy() ==> OneRound(r.layout).Some? && OneRound(r.layout).value.layout == r.layout)
    case SteppedBack => k > 0 && Rounds(l, k) == Some(Stage(r.messages, r.layout))
  }

  lemma {:induction false} StretchIsRounds(l: Layout) returns (k: nat)
    requires l.Valid()
    ensures Explains(l, k, DecodeStretch(l)) && (l.Tidy() ==> DecodeStretch(l).layout.Tidy())
    decreases |l.Unread()|
  {
    hide DecodeRound, OneRound, ScanFrom;
    RoundsAgree(l);
    if l.Tidy() {
      RoundKeepsTidy(l);
    }
    match DecodeRound(l)
    case Go(got, next) =>
      k := StretchIsRounds(next);
      k := k + 1;
    case Stop(r) =>
      if l.Tidy() && r.outcome == NoProgress {
        NoProgressIsForEver(l);
      }
      assert r.outcome == Faulted ==> Rounds(l, 1).None?;
      assert r.outcome == NoProgress || r.outcome == SteppedBack ==>
          Rounds(r.layout, 0) == Some(Stage([], r.layout)) && r.messages + [] == r.messages;
      k := if r.outcome == NoProgress || r.outcome == SteppedBack then 1 else 0;
  }

  lemma RoundKeepsTidy(l: Layout)
    requires l.Tidy()
    ensures match DecodeRound(l)
            case Go(_, next) => next.Tidy()
            case Stop(r) => r.layout.Tidy()
  {
    hide ScanFrom, ParseFrame, MoveRead;
  }

  lemma {:induction false} DecodeOnIsRounds(l: Layout, backs: nat) returns (k: nat)
    requires l.Valid()
    ensures Explains(l, k, DecodeOn(l, backs)) && (l.Tidy() ==> DecodeOn(l, backs).layout.Tidy())
    ensures DecodeOn(l, backs).outcome == SteppedBack ==> k > backs
    decreases backs
  {
    hide DecodeStretch, OneRound, ScanFrom;
    var r := DecodeStretch(l);
    k := StretchIsRounds(l);
    if r.outcome == SteppedBack && backs > 0 {
      var rest := DecodeOnIsRounds(r.layout, backs - 1);
      RoundsAdd(l, k, rest);
      RoundsAdd(l, k, rest + 1);
      k := k + rest;
    }
  }

  lemma {:induction false} RepeatsForEver(l: Layout, k: nat)
    requires l.Valid() && OneRound(l).Some? && OneRound(l).value.layout == l
    ensures Rounds(l, k).Some?
  {
    hide OneRound;
    if k > 0 {
      RepeatsForEver(l, k - 1);
    }
  }

  /* ----- Stepping back again and again ----- */

  /** Where the loop is after n stretches. */
  function Landing(l: Layout, n: nat): (r: Layout)
    requires l.Valid()
    ensures r.Valid() && |r.mem| == |l.mem|
    decreases n
  {
    if n == 0 then l else Landing(DecodeStretch(l).layout, n - 1)
  }

  lemma {:induction false} LandingAdd(l: Layout, i: nat, k: nat)
    requires l.Valid()
    ensures Landing(Landing(l, i), k) == Landing(l, i + k)
    decreases i
  {
    hide DecodeStretch;
    if i > 0 {
      LandingAdd(DecodeStretch(l).layout, i - 1, k);
    }
  }

  predicate BacksAt(l: Layout, n: nat)
    requires l.Valid()
  {
    DecodeStretch(Landing(l, n)).outcome == SteppedBack
  }

  lemma {:induction false} BacksThroughout(l: Layout, n: nat)
    requires l.Valid()
    ensures DecodeOn(l, n).outcome == SteppedBack <==> forall i :: 0 <= i <= n ==> BacksAt(l, i)
    decreases n
  {
    hide DecodeStretch;
    assert BacksAt(l, 0) <==> DecodeStretch(l).outcome == SteppedBack;
    if n > 0 {
      var next := DecodeStretch(l).layout;
      BacksThroughout(next, n - 1);
      assert forall i :: 1 <= i <= n ==> (BacksAt(l, i) <==> BacksAt(next, i - 1));
      assert forall i :: 0 <= i <= n - 1 ==> (BacksAt(next, i) <==> BacksAt(l, i + 1));
    }
  }

  /** Rounds change the memory only by a compaction, and that lowers the write index. */
  predicate Ages(a: Layout, b: Layout) {
    |a.mem| == |b.mem| && b.write <= a.write && (b.write == a.write ==> b.mem == a.mem)
  }

  lemma RoundAges(l: Layout)
    requires l.Valid()
    ensures match DecodeRound(l)
            case Go(_, next) => Ages(l, next)
            case Stop(r) => Ages(l, r.layout)
  {
    hide ScanFrom, ParseFrame;
    if ScanFrom(l.mem, l.read, l.write).Match? {
      MatchNeedsLengthWord(l.mem, l.read, l.write);
    }
  }

  lemma {:induction false} StretchAges(l: Layout)
    requires l.Valid()
    ensures Ages(l, DecodeStretch(l).layout)
    decreases |l.Unread()|
  {
    hide DecodeRound;
    RoundAges(l);
    if DecodeRound(l).Go? {
      StretchAges(DecodeRound(l).next);
    }
  }

  lemma {:induction false} LandingAges(l: Layout, n: nat)
    requires l.Valid()
    ensures Ages(l, Landing(l, n))
    decreases n
  {
    hide DecodeStretch;
    if n > 0 {
      StretchAges(l);
      LandingAges(DecodeStretch(l).layout, n - 1);
    }
  }

  /** A number for the two indices. */
  function Code(l: Layout): (c: nat)
    requires l.Valid()
  {
    l.write * (|l.mem| + 1) + l.read
  }

  lemma CodeIsBelow(l: Layout)
    requires l.Valid()
    ensures Code(l) < MaxBacks(|l.mem|)
  {
    var c := |l.mem| + 1;
    assert l.write * c <= (c - 1) * c;
  }

  lemma CodeDecides(a: Layout, b: Layout)
    requires a.Valid() && b.Valid() && Ages(a, b) && Code(a) == Code(b)
    ensures a == b
  {
    SplitIsUnique(a.write, a.read, b.write, b.read, |a.mem| + 1);
  }

  lemma SplitIsUnique(x: nat, y: nat, x': nat, y': nat, c: nat)
    requires y < c && y' < c && x * c + y == x' * c + y' && x' <= x
    ensures x == x' && y == y'
  {
    var d := x - x';
    assert x * c == x' * c + d * c;
    if d > 0 {
      ProductIsLarge(d, c);
    }
  }

  lemma ProductIsLarge(d: nat, c: nat)
    requires d > 0
    ensures d * c >= c
  {
    assert d * c == (d - 1) * c + c;
  }

  lemma {:induction false} Pigeonhole(codes: seq<nat>, n: nat) returns (i: nat, j: nat)
    requires n < |codes| && forall k :: 0 <= k < |codes| ==> codes[k] < n
    ensures i < j < |codes| && codes[i] == codes[j]
    decreases n
  {
    assert codes[0] < n;
    if a, b :| 0 <= a < b < |codes| && codes[a] == codes[b] == n - 1 {
      return a, b;
    }
    if p :| 0 <= p < |codes| && codes[p] == n - 1 {
      var rest := codes[..p] + codes[p + 1..];
      assert forall k :: 0 <= k < |rest| ==> rest[k] == codes[if k < p then k else k + 1] < n - 1;
      i, j := Pigeonhole(rest, n - 1);
      i, j := if i < p then i else i + 1, if j < p then j else j + 1;
    } else {
      i, j := Pigeonhole(codes, n - 1);
    }
  }

  /** After so many step backs the loop has been where it is before. */
  lemma LandsTwice(l: Layout) returns (i: nat, j: nat)
    requires l.Valid()
    ensures i < j <= MaxBacks(|l.mem|) && Landing(l, i) == Landing(l, j)
  {
    hide MaxBacks, Landing, Code, Ages;
    var n := MaxBacks(|l.mem|);
    var codes := seq(n + 1, k requires 0 <= k <= n => Code(Landing(l, k)));
    forall k | 0 <= k < |codes| ensures codes[k] < n {
      CodeIsBelow(Landing(l, k));
    }
    i, j := Pigeonhole(codes, n);
    LandingAdd(l, i, j - i);
    LandingAges(Landing(l, i), j - i);
    CodeDecides(Landing(l, i), Landing(l, j));
  }

  lemma {:induction false} Cycles(l: Layout, i: nat, j: nat, n: nat)
    requires l.Valid() && i < j && Landing(l, i) == Landing(l, j)
    requires forall k :: 0 <= k <= j ==> BacksAt(l, k)
    ensures BacksAt(l, n)
    decreases n
  {
    hide Landing;
    if n > j {
      LandingAdd(l, i, n - j);
      LandingAdd(l, j, n - j);
      Cycles(l, i, j, i + (n - j));
    }
  }

  /** If DecodeRun gives up stepping back, every number of step backs is followed by another. */
  lemma StepsBackForEver(l: Layout, backs: nat)
    requires l.Valid() && DecodeRun(l).outcome == SteppedBack
    ensures DecodeOn(l, backs).outcome == SteppedBack
  {
    hide MaxBacks, DecodeOn, BacksAt, Landing;
    BacksThroughout(l, MaxBacks(|l.mem|));
    var i, j := LandsTwice(l);
    forall n: nat ensures BacksAt(l, n) {
      Cycles(l, i, j, n);
    }
    BacksThroughout(l, backs);
  }

  /* ----- A loop that gives every byte back ----- */

  /** The loop has only moved the read index of a, or it has compacted what was left of it. */
  predicate Within(a: Layout, b: Layout) {
    a.Tidy() && b.Tidy() && |b.mem| == |a.mem|
    && ((b.mem == a.mem && b.write == a.write) || b.write < |a.Unread()|)
  }

  lemma RoundStaysWithin(a: Layout, l: Layout)
    requires Within(a, l)
    ensures match DecodeRound(l)
            case Go(_, next) => Within(a, next)
            case Stop(r) => Within(a, r.layout)
  {
    hide ScanFrom, ParseFrame;
    if ScanFrom(l.mem, l.read, l.write).Match? {
      MatchNeedsLengthWord(l.mem, l.read, l.write);
    }
  }

  lemma {:induction false} StretchStaysWithin(a: Layout, l: Layout)
    requires Within(a, l)
    ensures Within(a, DecodeStretch(l).layout)
    decreases |l.Unread()|
  {
    hide DecodeRound;
    RoundStaysWithin(a, l);
    if DecodeRound(l).Go? {
      StretchStaysWithin(a, DecodeRound(l).next);
    }
  }

  lemma {:induction false} DecodeStaysWithin(a: Layout, l: Layout, backs: nat)
    requires Within(a, l)
    ensures Within(a, DecodeOn(l, backs).layout)
    decreases backs
  {
    hide DecodeStretch, Within;
    assert l.Valid() by { WithinIsValid(a, l); }
    StretchStaysWithin(a, l);
    if DecodeStretch(l).outcome == SteppedBack && backs > 0 {
      DecodeStaysWithin(a, DecodeStretch(l).layout, backs - 1);
    }
  }

  lemma WithinIsValid(a: Layout, b: Layout)
    requires Within(a, b)
    ensures a.Valid() && b.Valid()
  {
  }

  /** If as many bytes are unread after decode as before, nothing has changed at all, however often
      it has stepped back. */
  lemma SameLengthIsSame(l: Layout)
    requires l.Tidy() && |DecodeRun(l).layout.Unread()| == |l.Unread()|
    ensures DecodeRun(l).layout == l
  {
    hide DecodeOn, MaxBacks;
    DecodeStaysWithin(l, l, MaxBacks(|l.mem|));
  }

  /* ----- DecodeRun is the loop ----- */

  /** Any content of the buffer: DecodeRun finishes with these messages at this layout if and only
      if the source's loop returns there with them, and it reports a loop without progress or with
      endless step backs if and only if the source's loop does not end. */
  lemma DecodeRunIsTheLoop(l: Layout)
    requires l.Tidy()
    ensures forall messages, e :: Returns(l, messages, e) <==> DecodeRun(l) == Decoded(Finished, messages, e)
    ensures Endless(l) <==> DecodeRun(l).outcome == NoProgress || DecodeRun(l).outcome == SteppedBack
  {
    hide MaxBacks, DecodeOn, OneRound, ScanFrom;
    var r := DecodeRun(l);
    var k := DecodeOnIsRounds(l, MaxBacks(|l.mem|));
    match r.outcome
    case Finished => ReturningIsUnique(l, k, r);
    case Faulted => FaultingNeverReturns(l, k);
    case NoProgress =>
      forall n: nat ensures Rounds(l, n).Some? {
        RepeatsForEver(r.layout, n);
        RoundsAdd(l, k, n);
        RoundsAreNested(l, n, k + n);
      }
      EndlessNeverReturns(l);
    case SteppedBack =>
      forall n: nat ensures Rounds(l, n).Some? {
        StepsBackForEver(l, n);
        var m := DecodeOnIsRounds(l, n);
        RoundsAreNested(l, n, m);
      }
      EndlessNeverReturns(l);
  }

  lemma NothingAfterReturn(l: Layout, k: nat, s: Stage)
    requires l.Valid() && s.layout.Valid() && Rounds(l, k) == Some(s)
    requires ScanFrom(s.layout.mem, s.layout.read, s.layout.write) == NoFrame
    ensures Rounds(l, k + 1).None?
  {
    hide ScanFrom;
    RoundsAdd(l, k, 1);
    assert OneRound(s.layout).None?;
  }

  lemma ReturningIsUnique(l: Layout, k: nat, r: Decoded)
    requires l.Valid() && r.layout.Valid() && r.outcome == Finished && Rounds(l, k) == Some(Stage(r.messages, r.layout))
    requires ScanFrom(r.layout.mem, r.layout.read, r.layout.write) == NoFrame
    ensures forall messages, e :: Returns(l, messages, e) <==> r == Decoded(Finished, messages, e)
    ensures !Endless(l)
  {
    hide Rounds, ScanFrom;
    NothingAfterReturn(l, k, Stage(r.messages, r.layout));
    forall messages, e | Returns(l, messages, e) ensures r == Decoded(Finished, messages, e) {
      var n: nat :| Rounds(l, n) == Some(Stage(messages, e));
      NothingAfterReturn(l, n, Stage(messages, e));
      if n < k {
        RoundsAreNested(l, n + 1, k);
      } else if k < n {
        RoundsAreNested(l, k + 1, n);
      }
    }
  }

  lemma FaultingNeverReturns(l: Layout, k: nat)
    requires l.Valid() && Rounds(l, k).Some? && Rounds(l, k + 1).None?
    requires var e := Rounds(l, k).value.layout; ScanFrom(e.mem, e.read, e.write) != NoFrame
    ensures forall messages, e :: !Returns(l, messages, e)
    ensures !Endless(l)
  {
    hide Rounds, ScanFrom;
    forall messages, e | Returns(l, messages, e) ensures false {
      var n: nat :| Rounds(l, n) == Some(Stage(messages, e));
      NothingAfterReturn(l, n, Stage(messages, e));
      if n < k {
        RoundsAreNested(l, n + 1, k);
      } else if k < n {
        RoundsAreNested(l, k + 1, n);
      }
    }
  }

  lemma EndlessNeverReturns(l: Layout)
    requires l.Valid() && Endless(l)
    ensures forall messages, e :: !Returns(l, messages, e)
  {
    hide Rounds, ScanFrom;
    forall messages, e | Returns(l, messages, e) ensures false {
      var n: nat :| Rounds(l, n) == Some(Stage(messages, e));
      NothingAfterReturn(l, n, Stage(messages, e));
    }
  }
}
