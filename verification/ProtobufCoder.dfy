/** ProtobufCoder: the scan for frames, the decode loop that consumes them from the buffer, and
    the encoder that appends them. Nothing is assumed about the bytes: an access outside an array
    and a loop that does not end are outcomes of the model. */
module ProtobufCoder {
  import opened Bytes
  import opened TcpBuffers
  import opened ProtobufFrames

  /* ----- The scan ----- */

  /** What the body of the scan loop does at one position. */
  datatype Probe = Pass | Hit(end: nat, pkLen: int) | Fault

  function ProbeAt(mem: Bytes, i: nat, write: nat): (r: Probe)
    requires i < write <= |mem|
    ensures r.Hit? ==> r.end < write && r.end == i + r.pkLen - 1
  {
    if mem[i] != START || i + 1 >= write then Pass
    else if i + 5 > |mem| then Fault
    else
      var pkLen := DecodeInt32(mem[i + 1..i + 5]);
      var j := i + pkLen - 1;
      if i + pkLen > INT_MAX then Fault
      else if j >= write then Pass
      else if j < 0 then Fault
      else if mem[j] == END then Hit(j, pkLen)
      else Pass
  }

  datatype ScanResult = NoFrame | Match(start: nat, end: nat, pkLen: int) | OutOfBounds

  /** The first position from i on that stops the scan decides its result. */
  function ScanFrom(mem: Bytes, i: nat, write: nat): (r: ScanResult)
    requires i <= write <= |mem|
    ensures r.Match? ==> i <= r.start < write && r.end < write && r.end == r.start + r.pkLen - 1
    decreases write - i
  {
    if i == write then NoFrame
    else match ProbeAt(mem, i, write)
      case Pass => ScanFrom(mem, i + 1, write)
      case Hit(end, pkLen) => Match(i, end, pkLen)
      case Fault => OutOfBounds
  }

  /** No start marker in mem[from..write] is followed by another byte, unless its length word lies
      in the vector and points past the write index or at a byte that is no end marker. */
  predicate Quiet(mem: Bytes, from: nat, write: nat)
    requires from <= write <= |mem|
  {
    forall i :: from <= i < write && mem[i] == START && i + 1 < write ==>
      && i + 5 <= |mem|
      && var n := DecodeInt32(mem[i + 1..i + 5]);
      && i + n <= INT_MAX
      && (i + n - 1 >= write || (0 <= i + n - 1 && mem[i + n - 1] != END))
  }

  /** The scan gives up on the bytes it has exactly when they are quiet. */
  lemma {:induction false} ScanFindsNothingIffQuiet(mem: Bytes, from: nat, write: nat)
    requires from <= write <= |mem|
    ensures ScanFrom(mem, from, write) == NoFrame <==> Quiet(mem, from, write)
    decreases write - from
  {
    if from < write {
      ScanFindsNothingIffQuiet(mem, from + 1, write);
      assert Quiet(mem, from, write) <==> ProbeAt(mem, from, write) == Pass && Quiet(mem, from + 1, write);
    }
  }

  lemma {:induction false} ScanPasses(mem: Bytes, from: nat, until: nat, write: nat)
    requires from <= until <= write <= |mem|
    requires forall i :: from <= i < until ==> ProbeAt(mem, i, write) == Pass
    ensures ScanFrom(mem, from, write) == ScanFrom(mem, until, write)
    decreases until - from
  {
    if from < until {
      ScanPasses(mem, from + 1, until, write);
    }
  }

  method Scan(mem: Bytes, from: nat, write: nat) returns (r: ScanResult)
    requires from <= write <= |mem|
    ensures r == ScanFrom(mem, from, write)
  {
    var i := from;
    while i < write
      invariant from <= i <= write
      invariant ScanFrom(mem, i, write) == ScanFrom(mem, from, write)
    {
      if mem[i] == START && i + 1 < write {
        if i + 5 > |mem| {
          return OutOfBounds;
        }
        var pkLen := DecodeInt32(mem[i + 1..i + 5]);
        if i + pkLen > INT_MAX {
          return OutOfBounds;
        }
        var j := i + pkLen - 1;
        if j < write {
          if j < 0 {
            return OutOfBounds;
          }
          if mem[j] == END {
            return Match(i, j, pkLen);
          }
        }
      }
      i := i + 1;
    }
    return NoFrame;
  }

  /* ----- The decode loop ----- */

  /** Finished: the loop returned. Faulted: an access outside an array. NoProgress: a match left the
      unread bytes as they are, so that the source finds it for ever. SteppedBack: a match of
      negative length moved the read index back over consumed bytes; the source scans on from there. */
  datatype Outcome = Finished | Faulted | NoProgress | SteppedBack

  datatype Decoded = Decoded(outcome: Outcome, messages: seq<Message>, layout: Layout)

  datatype Round = Stop(result: Decoded) | Go(got: seq<Message>, next: Layout)

  /** The body of the loop. After a match the read index is advanced by the length of the match,
      counted from where it was, and the fields come from the copy taken before. */
  function DecodeRound(l: Layout): (r: Round)
    requires l.Valid()
    ensures r.Go? ==> r.next.Valid() && |r.next.mem| == |l.mem| && r.next.write <= l.write
                      && |r.next.Unread()| < |l.Unread()|
    ensures r.Stop? && r.result.outcome == Finished ==> r.result == Decoded(Finished, [], l)
    ensures r.Stop? ==> r.result.layout.Valid() && |r.result.layout.mem| == |l.mem| && r.result.layout.write <= l.write
  {
    match ScanFrom(l.mem, l.read, l.write)
    case NoFrame => Stop(Decoded(Finished, [], l))
    case OutOfBounds => Stop(Decoded(Faulted, [], l))
    case Match(start, end, pkLen) =>
      var next := MoveRead(l, end - start + 1);
      var parsed := ParseFrame(l.mem, start, end, pkLen);
      if parsed.Undefined? then Stop(Decoded(Faulted, [], next)) else
      var got := if parsed.Parsed? then [parsed.message] else [];
      if |next.Unread()| < |l.Unread()| then Go(got, next)
      else Stop(Decoded(if |next.Unread()| == |l.Unread()| then NoProgress else SteppedBack, got, next))
  }

  /** A round without progress changes nothing, so that every round after it is the same. */
  lemma NoProgressIsForEver(l: Layout)
    requires l.Tidy() && DecodeRound(l).Stop? && DecodeRound(l).result.outcome == NoProgress
    ensures DecodeRound(l).result.layout == l
  {
    hide ScanFrom, ParseFrame;
    assert 5 <= |l.mem| by { MatchNeedsLengthWord(l.mem, l.read, l.write); }
  }

  lemma {:induction false} MatchNeedsLengthWord(mem: Bytes, i: nat, write: nat)
    requires i <= write <= |mem| && ScanFrom(mem, i, write).Match?
    ensures 5 <= |mem|
    decreases write - i
  {
    if ProbeAt(mem, i, write) == Pass {
      MatchNeedsLengthWord(mem, i + 1, write);
    }
  }

  /** What a number of rounds has got, and where the loop is then. */
  datatype Stage = Stage(messages: seq<Message>, layout: Layout)

  /** One pass through the body of the source's loop, whether or not it gains anything; None if the
      loop returns or faults in it. */
  function OneRound(l: Layout): (r: Option<Stage>)
    requires l.Valid()
    ensures r.Some? ==>
              r.value.layout.Valid() && |r.value.layout.mem| == |l.mem| && r.value.layout.write <= l.write
    ensures r.Some? && l.Tidy() ==> r.value.layout.Tidy()
  {
    var found := ScanFrom(l.mem, l.read, l.write);
    if !found.Match? then None
    else
      match ParseFrame(l.mem, found.start, found.end, found.pkLen)
      case Undefined => None
      case Rejected => Some(Stage([], MoveRead(l, found.end - found.start + 1)))
      case Parsed(m) => Some(Stage([m], MoveRead(l, found.end - found.start + 1)))
  }

  lemma RoundsAgree(l: Layout)
    requires l.Valid()
    ensures match DecodeRound(l)
            case Go(got, next) => OneRound(l) == Some(Stage(got, next))
            case Stop(r) =>
              && (ScanFrom(l.mem, l.read, l.write) == NoFrame <==> r.outcome == Finished)
              && (r.outcome == Finished ==> r == Decoded(Finished, [], l))
              && OneRound(l) == if r.outcome == Finished || r.outcome == Faulted then None
                                else Some(Stage(r.messages, r.layout))
  {
    hide ScanFrom, ParseFrame, MoveRead;
  }

  /** The lengths the messages were sent with. */
  function LengthSum(ms: seq<Message>): int {
    if ms == [] then 0 else ms[0].pkLen + LengthSum(ms[1..])
  }

  lemma {:induction false} LengthSumSplit(a: seq<Message>, b: seq<Message>)
    ensures LengthSum(a + b) == LengthSum(a) + LengthSum(b)
    decreases |a|
  {
    if a == [] {
      assert a + b == b;
    } else {
      LengthSumSplit(a[1..], b);
      assert (a + b)[0] == a[0] && (a + b)[1..] == a[1..] + b;
    }
  }

  /** The loop up to where it returns, faults, gains nothing, or steps back for the first time. */
  function DecodeStretch(l: Layout): (r: Decoded)
    requires l.Valid()
    ensures r.layout.Valid() && |r.layout.mem| == |l.mem| && r.layout.write <= l.write
    decreases |l.Unread()|
  {
    match DecodeRound(l)
    case Stop(result) => result
    case Go(got, next) => Prepend(got, DecodeStretch(next))
  }

  function Prepend(got: seq<Message>, d: Decoded): Decoded {
    d.(messages := got + d.messages)
  }

  lemma PrependTwice(a: seq<Message>, b: seq<Message>, d: Decoded)
    ensures Prepend(a, Prepend(b, d)) == Prepend(a + b, d)
  {
    assert a + (b + d.messages) == a + b + d.messages;
  }

  /** The loop with its step backs, up to the given number of them. */
  function DecodeOn(l: Layout, backs: nat): (r: Decoded)
    requires l.Valid()
    ensures r.layout.Valid() && |r.layout.mem| == |l.mem| && r.layout.write <= l.write
    decreases backs
  {
    var r := DecodeStretch(l);
    if r.outcome != SteppedBack || backs == 0 then r
    else Prepend(r.messages, DecodeOn(r.layout, backs - 1))
  }

  /** How many pairs of a read and a write index a vector of this size has, at most. */
  function MaxBacks(size: nat): nat {
    (size + 1) * (size + 1)
  }

  /** The whole loop. If it has stepped back this often it never ends; SteppedBack then says so. */
  function DecodeRun(l: Layout): (r: Decoded)
    requires l.Valid()
    ensures r.layout.Valid() && |r.layout.mem| == |l.mem| && r.layout.write <= l.write
  {
    DecodeOn(l, MaxBacks(|l.mem|))
  }

  lemma {:induction false} ContinuesOn(l: Layout, e: Layout, got: seq<Message>, backs: nat)
    requires l.Valid() && e.Valid() && DecodeStretch(l) == Prepend(got, DecodeStretch(e))
    ensures DecodeOn(l, backs) == Prepend(got, DecodeOn(e, backs))
  {
    hide DecodeStretch;
    var r := DecodeStretch(e);
    if r.outcome == SteppedBack && backs > 0 {
      PrependTwice(got, r.messages, DecodeOn(r.layout, backs - 1));
    }
  }

  /** What one round does to the rest of the loop. */
  lemma OnUnfolds(l: Layout, backs: nat)
    requires l.Valid()
    ensures match DecodeRound(l)
            case Go(got, next) => DecodeOn(l, backs) == Prepend(got, DecodeOn(next, backs))
            case Stop(r) =>
              DecodeOn(l, backs) == if r.outcome != SteppedBack || backs == 0 then r
                                    else Prepend(r.messages, DecodeOn(r.layout, backs - 1))
  {
    hide DecodeRound;
    match DecodeRound(l)
    case Go(got, next) => ContinuesOn(l, next, got, backs);
    case Stop(_) =>
  }

  lemma RunUnfolds(l: Layout)
    requires l.Valid()
    ensures match DecodeRound(l)
            case Go(got, next) => DecodeRun(l) == Prepend(got, DecodeRun(next))
            case Stop(r) => r.outcome != SteppedBack ==> DecodeRun(l) == r
  {
    hide DecodeRound, DecodeOn, MaxBacks;
    OnUnfolds(l, MaxBacks(|l.mem|));
  }

  /** Where the loop returns, the scan has just found nothing. */
  lemma {:induction false} FinishedFindsNothing(l: Layout, backs: nat)
    requires l.Valid() && DecodeOn(l, backs).outcome == Finished
    ensures var e := DecodeOn(l, backs).layout; ScanFrom(e.mem, e.read, e.write) == NoFrame
    decreases backs
  {
    hide DecodeStretch;
    var r := DecodeStretch(l);
    if r.outcome == SteppedBack {
      FinishedFindsNothing(r.layout, backs - 1);
    } else {
      StretchFindsNothing(l);
    }
  }

  lemma {:induction false} StretchFindsNothing(l: Layout)
    requires l.Valid() && DecodeStretch(l).outcome == Finished
    ensures var e := DecodeStretch(l).layout; ScanFrom(e.mem, e.read, e.write) == NoFrame
    decreases |l.Unread()|
  {
    hide ScanFrom, ParseFrame, MoveRead;
    if DecodeRound(l).Go? {
      StretchFindsNothing(DecodeRound(l).next);
    }
  }

  /* ----- Streams on which nothing steps back ----- */

  /** No start marker in front of a byte that would make its length negative. */
  predicate NoNegativeLength(s: Bytes) {
    forall k :: 0 <= k < |s| - 1 && s[k] == START ==> s[k + 1] < 128
  }

  lemma {:induction false} MatchIsForward(mem: Bytes, from: nat, write: nat, at: nat)
    requires from <= at <= write <= |mem| && NoNegativeLength(mem[from..write])
    requires ScanFrom(mem, at, write).Match?
    ensures ScanFrom(mem, at, write).pkLen >= 0
    decreases write - at
  {
    var s := mem[from..write];
    if ProbeAt(mem, at, write).Pass? {
      MatchIsForward(mem, from, write, at + 1);
    } else {
      assert s[at - from] == START && s[at + 1 - from] == mem[at + 1];
    }
  }

  /** A round on such bytes does not step back, it leaves a part of them, and it drops at least as
      many bytes as its message was sent with. */
  lemma RoundGoesForward(l: Layout)
    requires l.Valid() && NoNegativeLength(l.Unread())
    ensures match DecodeRound(l)
            case Go(got, next) =>
              && LengthSum(got) <= |l.Unread()| - |next.Unread()|
              && IsTail(next.Unread(), l.Unread())
            case Stop(r) => r.outcome != SteppedBack && (r.outcome == Finished ==> r.messages == [])
  {
    hide ScanFrom, ParseFrame, MoveRead;
    var found := ScanFrom(l.mem, l.read, l.write);
    if found.Match? {
      MatchIsForward(l.mem, l.read, l.write, l.read);
      ParsedLength(l.mem, found.start, found.end, found.pkLen);
      if l.read + found.pkLen < |l.mem| {
        assert l.mem[l.read + found.pkLen..l.write] == l.Unread()[found.pkLen..];
      }
    }
  }

  predicate IsTail(t: Bytes, s: Bytes) {
    |t| <= |s| && t == s[|s| - |t|..]
  }

  lemma ParsedLength(mem: Bytes, start: nat, end: int, pkLen: int)
    ensures var r := ParseFrame(mem, start, end, pkLen); r.Parsed? ==> r.message.pkLen == pkLen
  {
    hide ReadInt32, ReadText;
  }

  /** Every message is paid for, unless the loop steps back: decode drops at least as many bytes as
      the messages it returns were sent with, and leaves the rest as it was. */
  lemma {:induction false} DecodedBytesAreDropped(l: Layout)
    requires l.Valid() && NoNegativeLength(l.Unread()) && DecodeRun(l).outcome == Finished
    ensures LengthSum(DecodeRun(l).messages) <= |l.Unread()| - |DecodeRun(l).layout.Unread()|
    ensures IsTail(DecodeRun(l).layout.Unread(), l.Unread())
    ensures DecodeRun(l).layout == l || |DecodeRun(l).layout.Unread()| < |l.Unread()|
    decreases |l.Unread()|
  {
    hide DecodeRound, DecodeRun;
    RunUnfolds(l);
    RoundGoesForward(l);
    match DecodeRound(l)
    case Stop(_) =>
    case Go(got, next) =>
      DecodedBytesAreDropped(next);
      LengthSumSplit(got, DecodeRun(next).messages);
  }

  /** decode. A loop that never ends is left where that is certain: the source goes on finding the
      same match, or stepping back. */
  method Decode(buffer: TcpBuffer) returns (outMessages: seq<Message>, outcome: Outcome)
    requires buffer.Valid()
    modifies buffer
    ensures buffer.Valid() && (buffer.buf == old(buffer.buf) || fresh(buffer.buf))
    ensures Decoded(outcome, outMessages, buffer.View()) == DecodeRun(old(buffer.View()))
  {
    hide DecodeRound, DecodeOn, MaxBacks;
    outMessages := [];
    var backs := MaxBacks(buffer.buf.Length);
    while true
      invariant buffer.Valid() && (buffer.buf == old(buffer.buf) || fresh(buffer.buf))
      invariant DecodeRun(old(buffer.View())) == Prepend(outMessages, DecodeOn(buffer.View(), backs))
      decreases backs, |buffer.View().Unread()|
    {
      OnUnfolds(buffer.View(), backs);
      var got, stop := RunRound(buffer);
      outMessages := outMessages + got;
      if stop.Some? {
        if stop.value != SteppedBack || backs == 0 {
          return outMessages, stop.value;
        }
        backs := backs - 1;
      }
    }
  }

  lemma RoundUnfolds(l: Layout)
    requires l.Valid()
    ensures var found := ScanFrom(l.mem, l.read, l.write);
            && (found == NoFrame ==> DecodeRound(l) == Stop(Decoded(Finished, [], l)))
            && (found == OutOfBounds ==> DecodeRound(l) == Stop(Decoded(Faulted, [], l)))
            && (found.Match? ==>
                  var next := MoveRead(l, found.end - found.start + 1);
                  var parsed := ParseFrame(l.mem, found.start, found.end, found.pkLen);
                  var got := if parsed.Parsed? then [parsed.message] else [];
                  DecodeRound(l) == if parsed.Undefined? then Stop(Decoded(Faulted, [], next))
                                    else if |next.Unread()| < |l.Unread()| then Go(got, next)
                                    else if |next.Unread()| == |l.Unread()| then Stop(Decoded(NoProgress, got, next))
                                    else Stop(Decoded(SteppedBack, got, next)))
  {
    hide ScanFrom, ParseFrame, MoveRead;
  }

  method RunRound(buffer: TcpBuffer) returns (got: seq<Message>, stop: Option<Outcome>)
    requires buffer.Valid()
    modifies buffer
    ensures buffer.Valid() && (buffer.buf == old(buffer.buf) || fresh(buffer.buf))
    ensures DecodeRound(old(buffer.View()))
            == if stop.Some? then Stop(Decoded(stop.value, got, buffer.View())) else Go(got, buffer.View())
  {
    hide DecodeRound, ScanFrom, ParseFrame, MoveRead;
    ghost var l := buffer.View();
    RoundUnfolds(l);
    var tmp := buffer.buf[..];
    var unread := buffer.writeIndex - buffer.readIndex;
    var found := Scan(tmp, buffer.readIndex, buffer.writeIndex);
    if found.NoFrame? {
      return [], Some(Finished);
    }
    if found.OutOfBounds? {
      return [], Some(Faulted);
    }
    buffer.AdjustReadIndex(found.end - found.start + 1);
    ghost var next := buffer.View();
    assert next == MoveRead(l, found.end - found.start + 1);
    assert |next.Unread()| == buffer.writeIndex - buffer.readIndex && |l.Unread()| == unread;
    var parsed := ParseFrame(tmp, found.start, found.end, found.pkLen);
    if parsed.Undefined? {
      return [], Some(Faulted);
    }
    got := if parsed.Parsed? then [parsed.message] else [];
    stop := if buffer.writeIndex - buffer.readIndex < unread then None
            else if buffer.writeIndex - buffer.readIndex == unread then Some(NoProgress)
            else Some(SteppedBack);
  }

  /* ----- Encoding ----- */

  /** encode_protubuf: the malloc'ed frame and the message with its length fields filled in. */
  method EncodeProtobuf(message: Message) returns (buf: array<byte>, stamped: Message)
    requires Framable(message)
    ensures fresh(buf) && buf[..] == Frame(message)
    ensures stamped == Stamped(message)
  {
    hide EncodeInt32, Frame, Field, Header;
    stamped := message;
    if stamped.msgId == [] {
      stamped := stamped.(msgId := DEFAULT_ID);
    }
    var pkLen := 2 + 24 + |stamped.msgId| + |stamped.methodName| + |stamped.errInfo| + |stamped.pbData|;
    buf := new byte[pkLen];
    var tmp := Put(buf, 0, [START], []);
    tmp := Put(buf, tmp, EncodeInt32(pkLen), [START]);
    FrameUnfolds(message);
    ghost var done := Header(message);
    tmp := PutField(buf, tmp, stamped.msgId, done);
    done := done + Field(WireId(message));
    tmp := PutField(buf, tmp, stamped.methodName, done);
    done := done + Field(message.methodName);
    tmp := Put(buf, tmp, EncodeInt32(stamped.errCode), done);
    done := done + EncodeInt32(message.errCode);
    tmp := PutField(buf, tmp, stamped.errInfo, done);
    done := done + Field(message.errInfo);
    tmp := Put(buf, tmp, stamped.pbData, done);
    done := done + message.pbData;
    tmp := Put(buf, tmp, EncodeInt32(1), done);
    tmp := Put(buf, tmp, [END], done + EncodeInt32(1));
    assert done + EncodeInt32(1) + [END] == done + TRAILER;
    stamped := stamped.(pkLen := pkLen, msgIdLen := |stamped.msgId|, methodNameLen := |stamped.methodName|,
                        errInfoLen := |stamped.errInfo|, parseSuccess := true);
  }

  lemma FrameUnfolds(m: Message)
    requires Framable(m)
    ensures Header(m) == [START] + EncodeInt32(PkLen(m))
    ensures Frame(m) == Header(m) + Field(WireId(m)) + Field(m.methodName) + EncodeInt32(m.errCode) + Field(m.errInfo)
                        + m.pbData + TRAILER
  {
    hide EncodeInt32;
  }

  /** Copies text behind the bytes already written and returns the moved write position. */
  method Put(buf: array<byte>, at: nat, text: Bytes, ghost done: Bytes) returns (next: nat)
    requires at == |done| && at + |text| <= buf.Length && buf[..at] == done
    modifies buf
    ensures next == at + |text| && buf[..next] == done + text
  {
    MemCpy(buf, at, text);
    next := at + |text|;
    assert buf[..next] == buf[..][..at] + buf[..][at..next];
  }

  method PutField(buf: array<byte>, at: nat, text: Bytes, ghost done: Bytes) returns (next: nat)
    requires |text| <= INT_MAX
    requires at == |done| && at + 4 + |text| <= buf.Length && buf[..at] == done
    modifies buf
    ensures next == at + 4 + |text| && buf[..next] == done + Field(text)
  {
    next := Put(buf, at, EncodeInt32(|text|), done);
    if text != [] {
      next := Put(buf, next, text, done + EncodeInt32(|text|));
    }
    assert done + Field(text) == done + EncodeInt32(|text|) + text;
  }

  /** Every frame of the batch can be appended in turn. */
  predicate CanEncode(l: Layout, ms: seq<Message>)
    decreases |ms|
  {
    ms == []
    || (Framable(ms[0]) && CanAppend(l, PkLen(ms[0])) && CanEncode(Append(l, Frame(ms[0])), ms[1..]))
  }

  function EncodeRun(l: Layout, ms: seq<Message>): Layout
    requires CanEncode(l, ms)
    decreases |ms|
  {
    if ms == [] then l else EncodeRun(Append(l, Frame(ms[0])), ms[1..])
  }

  /** A batch adds its frames, back to back and in order, behind what is unread already. */
  lemma {:induction false} EncodeAppendsStream(l: Layout, ms: seq<Message>)
    requires l.Valid() && CanEncode(l, ms)
    ensures AllFramable(ms) && EncodeRun(l, ms).Valid()
    ensures EncodeRun(l, ms).Unread() == l.Unread() + Stream(ms)
    ensures l.Tidy() ==> EncodeRun(l, ms).Tidy()
    decreases |ms|
  {
    hide Frame, Append;
    if ms != [] {
      var f := Frame(ms[0]);
      EncodeAppendsStream(Append(l, f), ms[1..]);
      assert ms == [ms[0]] + ms[1..];
      assert l.Unread() + f + Stream(ms[1..]) == l.Unread() + Stream(ms);
    }
  }

  function StampedAll(ms: seq<Message>): (rs: seq<Message>)
    ensures |rs| == |ms| && forall k :: 0 <= k < |ms| ==> rs[k] == Stamped(ms[k])
  {
    seq(|ms|, k requires 0 <= k < |ms| => Stamped(ms[k]))
  }

  /** One step of the encoder's loop. */
  lemma EncodeStep(l: Layout, ms: seq<Message>, k: nat)
    requires k < |ms| && CanEncode(l, ms[k..])
    ensures Framable(ms[k]) && CanAppend(l, PkLen(ms[k])) && CanEncode(Append(l, Frame(ms[k])), ms[k + 1..])
    ensures EncodeRun(l, ms[k..]) == EncodeRun(Append(l, Frame(ms[k])), ms[k + 1..])
  {
    hide Frame, Append;
    assert ms[k..][0] == ms[k] && ms[k..][1..] == ms[k + 1..];
  }

  lemma EncodeEnds(l: Layout, ms: seq<Message>)
    ensures CanEncode(l, ms[|ms|..]) && EncodeRun(l, ms[|ms|..]) == l
  {
  }

  method Encode(messages: seq<Message>, outBuffer: TcpBuffer) returns (stamped: seq<Message>)
    requires outBuffer.Valid() && CanEncode(outBuffer.View(), messages)
    modifies outBuffer, outBuffer.buf
    ensures outBuffer.Valid() && (outBuffer.buf == old(outBuffer.buf) || fresh(outBuffer.buf))
    ensures outBuffer.View() == EncodeRun(old(outBuffer.View()), messages)
    ensures stamped == StampedAll(messages)
  {
    hide Frame, Append, CanEncode, EncodeRun;
    assert messages[0..] == messages;
    stamped := [];
    for k := 0 to |messages|
      invariant outBuffer.Valid() && (outBuffer.buf == old(outBuffer.buf) || fresh(outBuffer.buf))
      invariant CanEncode(outBuffer.View(), messages[k..])
      invariant EncodeRun(outBuffer.View(), messages[k..]) == EncodeRun(old(outBuffer.View()), messages)
      invariant |stamped| == k && forall i :: 0 <= i < k ==> stamped[i] == Stamped(messages[i])
    {
      EncodeStep(outBuffer.View(), messages, k);
      var buf, s := EncodeProtobuf(messages[k]);
      outBuffer.WriteToBuffer(buf[..]);
      stamped := stamped + [s];
    }
    EncodeEnds(outBuffer.View(), messages);
  }
}
