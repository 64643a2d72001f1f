/** A connection: bytes from the socket into the input buffer, requests out of it, replies into the
    output buffer; on the client side, replies to the callbacks that wait for them. */
module TcpConnections {
  import opened Bytes
  import opened TcpBuffers
  import opened ProtobufFrames
  import opened ProtobufCoder
  import opened DecodeLoops
  import opened StreamDecoding
  import opened RpcDispatchers

  /* ----- The read loop ----- */

  /** What read(2) returns: some bytes, end of file, EAGAIN, or another error. */
  datatype ReadResult = Data(bytes: Bytes) | Eof | WouldBlock | Failed

  /** Why the loop of on_read ended; Waiting if the results given here did not end it. */
  datatype ReadEnd = Execute | Close | Waiting

  datatype ReadDone = ReadDone(layout: Layout, end: ReadEnd)

  /** How many bytes a read is asked for: the free bytes, and if there are none those of a vector
      twice as large. */
  function Room(l: Layout): nat
    requires l.Valid()
  {
    if l.write < |l.mem| then |l.mem| - l.write else 2 * |l.mem| - (l.write - l.read)
  }

  function MakeRoom(l: Layout): (r: Layout)
    requires l.Valid() && (l.Free() == 0 ==> 2 * |l.mem| <= INT_MAX)
    ensures r.Valid() && (l.Tidy() ==> r.Tidy()) && r.Unread() == l.Unread()
    ensures |r.mem| == (if l.Free() == 0 then 2 * |l.mem| else |l.mem|) && r.Free() == Room(l)
  {
    if l.Free() == 0 then
      assert l.Unread()[..|l.Unread()|] == l.Unread();
      Resize(l, 2 * |l.mem|)
    else l
  }

  /** A read returns at least one byte and at most as many as it was asked for. */
  predicate Feasible(l: Layout, script: seq<ReadResult>)
    requires l.Valid()
    decreases |script|
  {
    script == []
    || ((l.Free() == 0 ==> 2 * |l.mem| <= INT_MAX)
        && var room := MakeRoom(l);
           match script[0]
           case Data(bytes) => 0 < |bytes| <= room.Free() && Feasible(Receive(room, bytes), script[1..])
           case Failed => Feasible(room, script[1..])
           case _ => true)
  }

  /** The loop of on_read: a read that fills the vector, or fails, is followed by another. */
  function ReadLoop(l: Layout, script: seq<ReadResult>): (r: ReadDone)
    requires l.Valid() && Feasible(l, script)
    ensures r.layout.Valid()
    decreases |script|
  {
    if script == [] then ReadDone(l, Waiting) else
    var room := MakeRoom(l);
    match script[0]
    case Data(bytes) =>
      var next := Receive(room, bytes);
      if |bytes| == room.Free() then ReadLoop(next, script[1..]) else ReadDone(next, Execute)
    case Eof => ReadDone(room, Close)
    case WouldBlock => ReadDone(room, Execute)
    case Failed => ReadLoop(room, script[1..])
  }

  /** A result that ends the loop: end of file, EAGAIN, or fewer bytes than there is room for. */
  predicate Ends(r: ReadResult, room: nat) {
    r.Eof? || r.WouldBlock? || (r.Data? && |r.bytes| < room)
  }

  /** The k-th result is the first to end the loop; those before it have failed or filled the room. */
  predicate EndsFirst(script: seq<ReadResult>, room: nat, k: nat) {
    k < |script| && Ends(script[k], room) && forall i :: 0 <= i < k ==> !Ends(script[i], room)
  }

  /** Every sequence of results: the first one that ends the loop decides. End of file closes, and
      anything else executes; the bytes of that read, if any, are added to the unread ones, and those
      of the reads before it are lost. */
  lemma {:induction false} ReadLoopDecides(l: Layout, script: seq<ReadResult>)
    requires l.Valid() && Feasible(l, script)
    ensures var r := ReadLoop(l, script);
            && |r.layout.mem| == (if script != [] && l.Free() == 0 then 2 * |l.mem| else |l.mem|)
            && (forall k: nat :: EndsFirst(script, Room(l), k) ==>
                  && r.end == (if script[k].Eof? then Close else Execute)
                  && r.layout.Unread() == l.Unread() + if script[k].Data? then script[k].bytes else [])
            && ((forall i :: 0 <= i < |script| ==> !Ends(script[i], Room(l))) ==>
                  r.end == Waiting && r.layout.Unread() == l.Unread())
    decreases |script|
  {
    hide Receive, Resize;
    if script != [] {
      var room, rest := MakeRoom(l), script[1..];
      var first := script[0];
      var next := if first.Data? then Receive(room, first.bytes) else room;
      if first.Failed? || (first.Data? && |first.bytes| == room.Free()) {
        FillingKeepsRoom(l, first);
        ReadLoopDecides(next, rest);
        assert !Ends(first, Room(l));
        forall k: nat | EndsFirst(script, Room(l), k)
          ensures k > 0 && EndsFirst(rest, Room(l), k - 1) && rest[k - 1] == script[k]
        {
          assert forall i :: 0 <= i < k - 1 ==> rest[i] == script[i + 1];
        }
      } else {
        assert Ends(first, Room(l));
        assert forall k: nat :: EndsFirst(script, Room(l), k) ==> k == 0;
      }
    }
  }

  /** A read that fails or fills the room leaves as much room for the next one. */
  lemma FillingKeepsRoom(l: Layout, r: ReadResult)
    requires l.Valid() && (l.Free() == 0 ==> 2 * |l.mem| <= INT_MAX)
    requires r.Failed? || (r.Data? && 0 < |r.bytes| == Room(l))
    ensures var room := MakeRoom(l);
            var next := if r.Data? then Receive(room, r.bytes) else room;
            && next.Valid() && next.Unread() == l.Unread() && Room(next) == Room(l)
            && |next.mem| == |room.mem| && (r.Data? ==> next.Free() > 0)
            && (|l.mem| > 0 ==> next.Free() > 0)
  {
  }

  /** Bytes read into the buffer become readable if and only if the read left a byte free. */
  lemma ReceivedIffShort(l: Layout, bytes: Bytes)
    requires l.Valid() && 0 < |bytes| <= l.Free()
    ensures Receive(l, bytes).Unread() == l.Unread() + bytes <==> |bytes| < l.Free()
  {
  }

  /* ----- Slack of the input buffer ----- */

  /** At least one byte is free, and the first third rule holds. */
  predicate Slack(l: Layout) {
    l.Tidy() && l.write < |l.mem|
  }

  lemma {:induction false} ReadLoopKeepsSlack(l: Layout, script: seq<ReadResult>)
    requires Slack(l) && Feasible(l, script)
    ensures var r := ReadLoop(l, script).layout; Slack(r) && |r.mem| == |l.mem|
    decreases |script|
  {
    hide Receive;
    if script != [] {
      match script[0]
      case Data(bytes) =>
        ReceiveKeepsSlack(l, bytes);
        if |bytes| == l.Free() {
          ReadLoopKeepsSlack(Receive(l, bytes), script[1..]);
        }
      case Failed => ReadLoopKeepsSlack(l, script[1..]);
      case _ =>
    }
  }

  lemma ReceiveKeepsSlack(l: Layout, bytes: Bytes)
    requires Slack(l) && |bytes| <= l.Free()
    ensures Slack(Receive(l, bytes)) && |Receive(l, bytes).mem| == |l.mem|
  {
  }

  /** What can happen to an input buffer: the read loop of one on_read, or one more round of the
      decode loop, in whatever order and number. Rounds that gain nothing or step back are rounds
      too, so every state the source passes through is a state of such a run. */
  datatype InputStep = Reads(script: seq<ReadResult>) | DecodesOnce

  predicate FeasibleInput(l: Layout, steps: seq<InputStep>)
    requires l.Valid()
    decreases |steps|
  {
    steps == []
    || ((steps[0].Reads? ==> Feasible(l, steps[0].script)) && FeasibleInput(AfterInput(l, steps[0]), steps[1..]))
  }

  /** Nothing changes if the decode loop would return or fault. */
  function AfterInput(l: Layout, step: InputStep): (r: Layout)
    requires l.Valid()
    ensures r.Valid()
  {
    match step
    case Reads(script) => if Feasible(l, script) then ReadLoop(l, script).layout else l
    case DecodesOnce => if OneRound(l).Some? then OneRound(l).value.layout else l
  }

  function InputRun(l: Layout, steps: seq<InputStep>): Layout
    requires l.Valid() && FeasibleInput(l, steps)
    decreases |steps|
  {
    if steps == [] then l else InputRun(AfterInput(l, steps[0]), steps[1..])
  }

  /** Whatever bytes the peer sends and however they arrive, the input buffer never fills and never
      grows, in every state in between. */
  lemma {:induction false} InputNeverFills(l: Layout, steps: seq<InputStep>)
    requires Slack(l) && FeasibleInput(l, steps)
    ensures var r := InputRun(l, steps); Slack(r) && |r.mem| == |l.mem| && |r.Unread()| < |r.mem|
    decreases |steps|
  {
    hide OneRound, ReadLoop, Feasible;
    if steps != [] {
      if steps[0].Reads? {
        ReadLoopKeepsSlack(l, steps[0].script);
      }
      InputNeverFills(AfterInput(l, steps[0]), steps[1..]);
    }
  }

  /** Every state the decode loop passes through is a state of such a run. */
  lemma {:induction false} RoundsAreInput(l: Layout, k: nat)
    requires l.Valid() && Rounds(l, k).Some?
    ensures FeasibleInput(l, Decoding(k)) && InputRun(l, Decoding(k)) == Rounds(l, k).value.layout
    decreases k
  {
    hide OneRound;
    if k > 0 {
      RoundsAreInput(OneRound(l).value.layout, k - 1);
      assert Decoding(k)[1..] == Decoding(k - 1);
    }
  }

  function Decoding(k: nat): (steps: seq<InputStep>)
    ensures |steps| == k && forall i :: 0 <= i < k ==> steps[i] == DecodesOnce
  {
    seq(k, _ => DecodesOnce)
  }

  /** So is every state in which a read loop leaves the buffer. */
  lemma ReadsAreInput(l: Layout, script: seq<ReadResult>)
    requires l.Valid() && Feasible(l, script)
    ensures FeasibleInput(l, [Reads(script)]) && InputRun(l, [Reads(script)]) == ReadLoop(l, script).layout
  {
    assert [Reads(script)][1..] == [];
  }

  /** So is the one that it stops in. */
  lemma DecodeIsSomeRounds(l: Layout) returns (k: nat)
    requires l.Valid()
    ensures FeasibleInput(l, Decoding(k))
    ensures DecodeRun(l).outcome != Faulted ==> InputRun(l, Decoding(k)) == DecodeRun(l).layout
  {
    hide DecodeOn, InputRun, FeasibleInput, Rounds, OneRound;
    k := DecodeOnIsRounds(l, MaxBacks(|l.mem|));
    RoundsAreInput(l, k);
  }

  /** With slack, consuming a match of positive length is never refused: every such round drops
      exactly its length, whatever the bytes are. And no frame as long as the vector is ever found. */
  lemma SlackNeverRefuses(l: Layout)
    requires Slack(l) && ScanFrom(l.mem, l.read, l.write).Match?
    ensures var n := ScanFrom(l.mem, l.read, l.write).pkLen;
            && n < |l.mem|
            && (n > 0 ==> CanMoveRead(l, n) && MoveRead(l, n).Unread() == l.Unread()[n..])
            && (n > 0 ==> DecodeRound(l).Go? || DecodeRound(l).result.outcome == Faulted)
  {
    hide ScanFrom, ParseFrame, MoveRead;
    var n := ScanFrom(l.mem, l.read, l.write).pkLen;
    if n > 0 {
      assert l.mem[l.read + n..l.write] == l.Unread()[n..];
    }
  }

  /* ----- The server side of excute ----- */

  function ServeAll(services: ServiceMap, requests: seq<Message>): (replies: seq<Message>)
    ensures |replies| == |requests|
    ensures forall k :: 0 <= k < |requests| ==> replies[k] == Reply(services, requests[k])
  {
    seq(|requests|, k requires 0 <= k < |requests| => Reply(services, requests[k]))
  }

  /** The replies to the requests ms can be framed. */
  predicate RepliesFit(services: ServiceMap, ms: seq<Message>) {
    forall k :: 0 <= k < |ms| ==> PkLen(Reply(services, Received(ms[k]))) <= INT_MAX
  }

  lemma RepliesAreEncodable(services: ServiceMap, ms: seq<Message>)
    requires AllEncodable(ms) && RepliesFit(services, ms)
    ensures AllEncodable(ServeAll(services, ReceivedAll(ms)))
  {
    var replies := ServeAll(services, ReceivedAll(ms));
    forall r | r in replies ensures Encodable(r) {
      var k :| 0 <= k < |ms| && r == replies[k];
      assert ms[k] in ms;
      ReplyIsEncodable(services, Received(ms[k]));
    }
  }

  /** End to end. The server decodes every batch of encoded requests, appends exactly one frame per
      request to its output, in order, whichever way each was dispatched; and a client that
      receives those frames decodes one reply per request, with the id and the method name of that
      request, and with the answer of its method to its payload, or the error of the stage that
      failed. */
  lemma EndToEnd(services: ServiceMap, input: Layout, output: Layout, ms: seq<Message>, client: Layout)
    requires AllEncodable(ms) && RepliesFit(services, ms)
    requires Slack(input) && input.Unread() == Stream(ms)
    requires output.Valid() && CanEncode(output, ServeAll(services, DecodeRun(input).messages))
    ensures var replies := ServeAll(services, DecodeRun(input).messages);
            && DecodeRun(input).outcome == Finished
            && DecodeRun(input).layout.Unread() == []
            && |replies| == |ms|
            && AllEncodable(replies)
            && EncodeRun(output, replies).Valid()
            && EncodeRun(output, replies).Unread() == output.Unread() + Stream(replies)
            && (Slack(client) && client.Unread() == Stream(replies) ==>
                  && DecodeRun(client).outcome == Finished
                  && DecodeRun(client).layout.Unread() == []
                  && Answers(services, ms, DecodeRun(client).messages))
  {
    hide DecodeRun, EncodeRun, Stream, CanEncode, Reply;
    assert [] + Stream(ms) + [] == Stream(ms);
    DecodeStream(input, [], ms, []);
    assert Residue([], ms) + [] == [];
    var replies := ServeAll(services, DecodeRun(input).messages);
    RepliesAreEncodable(services, ms);
    EncodeAppendsStream(output, replies);
    if Slack(client) && client.Unread() == Stream(replies) {
      assert [] + Stream(replies) + [] == Stream(replies);
      DecodeStream(client, [], replies, []);
      assert Residue([], replies) + [] == [];
      forall k | 0 <= k < |ms| ensures AnswersOne(services, ms[k], DecodeRun(client).messages[k]) {
        ReplyAnswers(services, ms[k]);
      }
    }
  }

  lemma ReplyAnswers(services: ServiceMap, m: Message)
    ensures AnswersOne(services, m, Received(Reply(services, Received(m))))
  {
    hide Reply;
    ReplyIsTheAnswer(services, Received(m));
  }

  /** The reply has the id and the method name of the request, the error of the first stage of
      dispatch that fails for it, and what its method answers to its payload. */
  ghost predicate AnswersOne(services: ServiceMap, request: Message, reply: Message) {
    && reply.msgId == WireId(request)
    && reply.methodName == request.methodName
    && Answered(services, request, reply.errCode, reply.errInfo, reply.pbData)
  }

  ghost predicate Answers(services: ServiceMap, requests: seq<Message>, replies: seq<Message>) {
    |replies| == |requests| && forall k :: 0 <= k < |requests| ==> AnswersOne(services, requests[k], replies[k])
  }

  /* ----- The connection object ----- */

  datatype TcpState = NotConnected | Connected | HalfClosing | Closed

  /** The name of a callback kept by the connection. */
  type Callback = nat

  /** A decoded message handed to a callback, or a sent message reported to one. */
  datatype Delivery = Delivery(callback: Callback, message: Message)

  /** The callbacks run by excute on the client: every message whose id is waited for, in order. */
  function Deliveries(waiting: map<Bytes, Callback>, messages: seq<Message>): seq<Delivery> {
    if messages == [] then []
    else
      var rest := Deliveries(waiting, messages[1..]);
      var m := messages[0];
      if m.msgId in waiting then [Delivery(waiting[m.msgId], m)] + rest else rest
  }

  lemma {:induction false} DeliveriesSplit(waiting: map<Bytes, Callback>, a: seq<Message>, b: seq<Message>)
    ensures Deliveries(waiting, a + b) == Deliveries(waiting, a) + Deliveries(waiting, b)
    decreases |a|
  {
    if a == [] {
      assert a + b == b;
    } else {
      DeliveriesSplit(waiting, a[1..], b);
      assert (a + b)[0] == a[0] && (a + b)[1..] == a[1..] + b;
    }
  }

  /** A client that waits for the ids of its requests gets each reply exactly once: if no two
      requests share an id, the callback of a request runs once, with the reply to it. */
  lemma {:induction false} EachWaiterRunsOnce(waiting: map<Bytes, Callback>, replies: seq<Message>, k: nat)
    requires k < |replies| && replies[k].msgId in waiting
    requires forall i, j :: 0 <= i < j < |replies| ==> replies[i].msgId != replies[j].msgId
    requires forall a, b :: a in waiting && b in waiting && waiting[a] == waiting[b] ==> a == b
    ensures multiset(Deliveries(waiting, replies))[Delivery(waiting[replies[k].msgId], replies[k])] == 1
    ensures forall d :: d in Deliveries(waiting, replies) && d.callback == waiting[replies[k].msgId]
                        ==> d.message == replies[k]
    decreases |replies|
  {
    var m, rest := replies[0], replies[1..];
    var ds := Deliveries(waiting, rest);
    DeliveriesComeFromMessages(waiting, rest);
    if k > 0 {
      EachWaiterRunsOnce(waiting, rest, k - 1);
    } else {
      assert Delivery(waiting[m.msgId], m) !in ds;
      assert multiset(ds)[Delivery(waiting[m.msgId], m)] == 0;
    }
  }

  /** From request to callback: when a client decodes the answers to requests with different ids, as
      EndToEnd says it does, and waits for the k-th of them, exactly one callback run belongs to that
      request, and its message is the server's answer to it. */
  lemma EveryCallerIsAnswered(services: ServiceMap, requests: seq<Message>, replies: seq<Message>,
                              waiting: map<Bytes, Callback>, k: nat)
    requires Answers(services, requests, replies)
    requires forall i, j :: 0 <= i < j < |requests| ==> WireId(requests[i]) != WireId(requests[j])
    requires forall a, b :: a in waiting && b in waiting && waiting[a] == waiting[b] ==> a == b
    requires k < |requests| && WireId(requests[k]) in waiting
    ensures var ds, callback := Deliveries(waiting, replies), waiting[WireId(requests[k])];
            && AnswersOne(services, requests[k], replies[k])
            && multiset(ds)[Delivery(callback, replies[k])] == 1
            && forall d :: d in ds && d.callback == callback ==> d.message == replies[k]
  {
    hide Deliveries, Answered, WireId;
    forall i | 0 <= i < |requests| ensures replies[i].msgId == WireId(requests[i]) {
      assert AnswersOne(services, requests[i], replies[i]);
    }
    EachWaiterRunsOnce(waiting, replies, k);
  }

  lemma {:induction false} DeliveriesComeFromMessages(waiting: map<Bytes, Callback>, messages: seq<Message>)
    ensures forall d :: d in Deliveries(waiting, messages) ==>
              d.message in messages && d.message.msgId in waiting && d.callback == waiting[d.message.msgId]
    decreases |messages|
  {
    if messages != [] {
      DeliveriesComeFromMessages(waiting, messages[1..]);
    }
  }

  class TcpConnection {
    const inBuffer: TcpBuffer
    const outBuffer: TcpBuffer
    const dispatcher: RpcDispatcher
    const isServer: bool
    var state: TcpState
    var readsListened: bool   // the descriptor's event asks for EPOLLIN
    var writesListened: bool  // and for EPOLLOUT
    var inLoop: bool          // the loop has been asked to watch the descriptor
    var readDones: map<Bytes, Callback>
    var writeDones: seq<Delivery>

    ghost predicate Valid()
      reads this, inBuffer, inBuffer.buf, outBuffer, outBuffer.buf
    {
      inBuffer != outBuffer && inBuffer.buf != outBuffer.buf && inBuffer.Valid() && outBuffer.Valid()
    }

    constructor (bufferSize: nat, dispatcher: RpcDispatcher, isServer: bool)
      requires bufferSize <= INT_MAX
      ensures Valid() && fresh(inBuffer) && fresh(outBuffer) && fresh(inBuffer.buf) && fresh(outBuffer.buf)
      ensures inBuffer.View() == outBuffer.View() == Fresh(bufferSize)
      ensures this.dispatcher == dispatcher && this.isServer == isServer
      ensures state == NotConnected && readDones == map[] && writeDones == []
      ensures readsListened == inLoop == isServer && !writesListened
    {
      inBuffer := new TcpBuffer(bufferSize);
      outBuffer := new TcpBuffer(bufferSize);
      this.dispatcher, this.isServer := dispatcher, isServer;
      state, readDones, writeDones := NotConnected, map[], [];
      readsListened, writesListened, inLoop := isServer, false, isServer;
    }

    /** The replies to whatever is decoded from l fit into the output buffer. */
    ghost predicate CanReply(l: Layout)
      requires l.Valid()
      reads this, outBuffer, outBuffer.buf, dispatcher
    {
      isServer && DecodeRun(l).outcome == Finished ==>
        CanEncode(outBuffer.View(), ServeAll(dispatcher.services, DecodeRun(l).messages))
    }

    /** The reading part of on_read. */
    method ReadFromSocket(script: seq<ReadResult>) returns (end: ReadEnd)
      requires Valid() && Feasible(inBuffer.View(), script)
      modifies inBuffer, inBuffer.buf
      ensures Valid() && (inBuffer.buf == old(inBuffer.buf) || fresh(inBuffer.buf))
      ensures ReadDone(inBuffer.View(), end) == ReadLoop(old(inBuffer.View()), script)
    {
      hide Receive, Resize;
      var k := 0;
      while k < |script|
        invariant k <= |script|
        invariant Valid() && (inBuffer.buf == old(inBuffer.buf) || fresh(inBuffer.buf))
        invariant Feasible(inBuffer.View(), script[k..])
        invariant ReadLoop(inBuffer.View(), script[k..]) == ReadLoop(old(inBuffer.View()), script)
      {
        assert script[k..][0] == script[k] && script[k..][1..] == script[k + 1..];
        if inBuffer.buf.Length - inBuffer.writeIndex == 0 {
          inBuffer.ResizeBuffer(2 * inBuffer.buf.Length);
        }
        var readCount := inBuffer.buf.Length - inBuffer.writeIndex;
        var result := script[k];
        k := k + 1;
        if result.Data? {
          inBuffer.ReceiveBytes(result.bytes);
          if |result.bytes| < readCount {
            return Execute;
          }
        } else if result.Eof? {
          return Close;
        } else if result.WouldBlock? {
          return Execute;
        }
      }
      return Waiting;
    }

    /** excute. If decode does not finish, the source does not get past it either: it has faulted, or
        its loop does not end. */
    method Excute() returns (outcome: Outcome, delivered: seq<Delivery>)
      requires Valid() && CanReply(inBuffer.View())
      modifies this`writesListened, this`inLoop, inBuffer, outBuffer, outBuffer.buf
      ensures Valid()
      ensures isServer && outcome == Finished ==> writesListened && inLoop
      ensures !isServer || outcome != Finished ==> writesListened == old(writesListened) && inLoop == old(inLoop)
      ensures outcome == DecodeRun(old(inBuffer.View())).outcome
      ensures inBuffer.View() == DecodeRun(old(inBuffer.View())).layout
      ensures isServer && outcome == Finished ==>
                outBuffer.View() == EncodeRun(old(outBuffer.View()),
                                              ServeAll(dispatcher.services, DecodeRun(old(inBuffer.View())).messages))
      ensures !isServer || outcome != Finished ==> outBuffer.View() == old(outBuffer.View())
      ensures delivered == if isServer || outcome != Finished then []
                           else Deliveries(readDones, DecodeRun(old(inBuffer.View())).messages)
    {
      hide DecodeRun, EncodeRun, CanEncode, Reply;
      delivered := [];
      var result;
      result, outcome := Decode(inBuffer);
      if outcome != Finished {
        return;
      }
      if isServer {
        var replies: seq<Message> := [];
        for i := 0 to |result|
          modifies {}
          invariant |replies| == i
          invariant forall k :: 0 <= k < i ==> replies[k] == Reply(dispatcher.services, result[k])
        {
          var reply, _ := dispatcher.Dispatch(result[i]);
          replies := replies + [reply];
        }
        assert replies == ServeAll(dispatcher.services, result);
        var _ := Encode(replies, outBuffer);
        ListenWrite();
      } else {
        for i := 0 to |result|
          modifies {}
          invariant delivered == Deliveries(readDones, result[..i])
        {
          DeliveriesSplit(readDones, result[..i], [result[i]]);
          assert result[..i + 1] == result[..i] + [result[i]];
          assert Deliveries(readDones, []) == [] && [result[i]][1..] == [];
          if result[i].msgId in readDones {
            delivered := delivered + [Delivery(readDones[result[i].msgId], result[i])];
          }
        }
        assert result[..|result|] == result;
      }
    }

    method ListenWrite()
      modifies this`writesListened, this`inLoop
      ensures writesListened && inLoop
    {
      writesListened, inLoop := true, true;
    }

    /** on_read */
    method OnRead(script: seq<ReadResult>) returns (outcome: Outcome, delivered: seq<Delivery>)
      requires Valid() && Feasible(inBuffer.View(), script)
      requires CanReply(ReadLoop(inBuffer.View(), script).layout)
      modifies this`state, this`readsListened, this`writesListened, this`inLoop
      modifies inBuffer, inBuffer.buf, outBuffer, outBuffer.buf
      ensures Valid()
      ensures old(state) != Connected ==>
                state == old(state) && inBuffer.View() == old(inBuffer.View())
                && outBuffer.View() == old(outBuffer.View()) && delivered == []
      ensures old(state) == Connected ==>
                var read := ReadLoop(old(inBuffer.View()), script);
                && state == (if read.end == Close then Closed else Connected)
                && (read.end == Close ==> !readsListened && !writesListened && !inLoop)
                && (read.end == Execute ==>
                      var d := DecodeRun(read.layout);
                      && outcome == d.outcome
                      && inBuffer.View() == d.layout
                      && (isServer && outcome == Finished ==>
                            outBuffer.View()
                            == EncodeRun(old(outBuffer.View()), ServeAll(dispatcher.services, d.messages)))
                      && (!isServer && outcome == Finished ==> delivered == Deliveries(readDones, d.messages)))
                && (read.end != Execute ==>
                      inBuffer.View() == read.layout && outBuffer.View() == old(outBuffer.View()) && delivered == [])
      ensures old(state) == Connected ==>
                forall k: nat :: EndsFirst(script, Room(old(inBuffer.View())), k) ==>
                  (state == Closed <==> script[k].Eof?)
    {
      hide DecodeRun, EncodeRun, CanEncode, ReadLoop, Feasible;
      outcome, delivered := Finished, [];
      if state != Connected {
        return;
      }
      ReadLoopDecides(inBuffer.View(), script);
      var end := ReadFromSocket(script);
      if end == Close {
        Clear();
        return;
      }
      if end == Execute {
        outcome, delivered := Excute();
      }
    }

    /** Closes at most once: both events are cancelled and the descriptor leaves the loop. */
    method Clear()
      modifies this`state, this`readsListened, this`writesListened, this`inLoop
      ensures state == Closed
      ensures old(state) != Closed ==> !readsListened && !writesListened && !inLoop
      ensures old(state) == Closed ==>
                readsListened == old(readsListened) && writesListened == old(writesListened) && inLoop == old(inLoop)
    {
      if state == Closed {
        return;
      }
      readsListened, writesListened, inLoop := false, false, false;
      state := Closed;
    }

    method Shutdown()
      modifies this`state
      ensures state == if old(state) == Closed || old(state) == NotConnected then old(state) else HalfClosing
    {
      if state == Closed || state == NotConnected {
        return;
      }
      state := HalfClosing;
    }

    /** push_read_message: std::map::insert keeps a callback that is already there. */
    method PushReadMessage(reqId: Bytes, done: Callback)
      modifies this`readDones
      ensures readDones.Keys == old(readDones).Keys + {reqId}
      ensures readDones[reqId] == if reqId in old(readDones) then old(readDones)[reqId] else done
      ensures forall id :: id in old(readDones) ==> readDones[id] == old(readDones)[id]
    {
      if reqId !in readDones {
        readDones := readDones[reqId := done];
      }
    }

    method PushSendMessage(message: Message, done: Callback)
      modifies this`writeDones
      ensures writeDones == old(writeDones) + [Delivery(done, message)]
    {
      writeDones := writeDones + [Delivery(done, message)];
    }

    ghost function Outgoing(): (ms: seq<Message>)
      reads this
    {
      MessagesOf(writeDones)
    }

    /** on_write up to the socket: a client encodes what it has queued, and after the write every
        callback is told and the queue is emptied. */
    method OnWrite() returns (reported: seq<Delivery>)
      requires Valid() && (!isServer ==> CanEncode(outBuffer.View(), Outgoing()))
      modifies this`writeDones, outBuffer, outBuffer.buf
      ensures Valid() && inBuffer.View() == old(inBuffer.View())
      ensures state != Connected || isServer ==>
                outBuffer.View() == old(outBuffer.View()) && writeDones == old(writeDones) && reported == []
      ensures state == Connected && !isServer ==>
                && outBuffer.View() == EncodeRun(old(outBuffer.View()), old(Outgoing()))
                && writeDones == []
                && |reported| == |old(writeDones)|
                && forall k :: 0 <= k < |reported| ==>
                     reported[k] == Delivery(old(writeDones)[k].callback, Stamped(old(writeDones)[k].message))
    {
      hide EncodeRun, CanEncode;
      reported := [];
      if state != Connected || isServer {
        return;
      }
      var messages := MessagesOf(writeDones);
      var stamped := Encode(messages, outBuffer);
      for k := 0 to |writeDones|
        invariant |reported| == k
        invariant forall i :: 0 <= i < k ==>
                    reported[i] == Delivery(writeDones[i].callback, Stamped(writeDones[i].message))
      {
        reported := reported + [Delivery(writeDones[k].callback, stamped[k])];
      }
      writeDones := [];
    }
  }

  function MessagesOf(ds: seq<Delivery>): (ms: seq<Message>)
    ensures |ms| == |ds| && forall k :: 0 <= k < |ds| ==> ms[k] == ds[k].message
  {
    seq(|ds|, k requires 0 <= k < |ds| => ds[k].message)
  }
}
