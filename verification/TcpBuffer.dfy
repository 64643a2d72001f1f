/** The connection buffer: a vector of bytes with a read and a write index, which grows and
    compacts itself. `Layout` is the value of a buffer, and the functions on it say what each
    operation does to the memory; `ByteQueue` says what a caller sees. */
module TcpBuffers {
  import opened Bytes

  datatype Layout = Layout(mem: Bytes, read: nat, write: nat) {
    predicate Valid() {
      read <= write <= |mem| <= INT_MAX
    }

    /** What holds between calls: a read index past the first third has been moved back to 0. */
    predicate Tidy() {
      Valid() && if |mem| < 3 then read == 0 else read < |mem| / 3
    }

    function Unread(): Bytes
      requires Valid()
    {
      mem[read..write]
    }

    function Free(): nat
      requires Valid()
    {
      |mem| - write
    }
  }

  function Min(a: int, b: int): int {
    if a < b then a else b
  }

  /** memcpy of data into mem at position at. */
  function Splice(mem: Bytes, at: nat, data: Bytes): (r: Bytes)
    requires at + |data| <= |mem|
    ensures |r| == |mem| && r[at..at + |data|] == data
    ensures r[..at] == mem[..at] && r[at + |data|..] == mem[at + |data|..]
  {
    mem[..at] + data + mem[at + |data|..]
  }

  lemma SpliceIntoZeros(n: nat, data: Bytes)
    requires |data| <= n
    ensures Splice(Zeros(n), 0, data) == data + Zeros(n - |data|)
  {
  }

  function Fresh(size: nat): Layout {
    Layout(Zeros(size), 0, 0)
  }

  /** resize_buffer */
  function Resize(l: Layout, newSize: nat): (r: Layout)
    requires l.Valid() && newSize <= INT_MAX
    ensures r.Tidy() && |r.mem| == newSize && r.read == 0
    ensures r.Unread() == l.Unread()[..Min(newSize, |l.Unread()|)]
  {
    var kept := l.Unread()[..Min(newSize, |l.Unread()|)];
    Layout(kept + Zeros(newSize - |kept|), 0, |kept|)
  }

  /** adjust_buffer */
  function Compact(l: Layout): (r: Layout)
    requires l.Valid()
    ensures r.Tidy() && |r.mem| == |l.mem| && r.Unread() == l.Unread()
    ensures r.write <= l.write
  {
    if l.read < |l.mem| / 3 then l
    else Layout(l.Unread() + Zeros(|l.mem| - |l.Unread()|), 0, |l.Unread()|)
  }

  /** Bytes that adjust_buffer copies to the front of the vector. */
  function CompactCost(l: Layout): nat
    requires l.Valid()
  {
    if l.read < |l.mem| / 3 then 0 else |l.Unread()|
  }

  /** The index write + size must leave the read index behind it, or be refused. */
  predicate CanMoveWrite(l: Layout, size: int) {
    l.Valid() && (0 <= l.write + size < |l.mem| ==> l.read <= l.write + size)
  }

  /** adjust_write_index; a target of capacity or more, or a negative one, is refused. */
  function MoveWrite(l: Layout, size: int): (r: Layout)
    requires CanMoveWrite(l, size)
    ensures r.Valid() && |r.mem| == |l.mem|
    ensures 0 <= l.write + size < |l.mem| ==> r.Tidy() && r.Unread() == l.mem[l.read..l.write + size]
    ensures l.write < |l.mem| ==> r.write < |r.mem|
  {
    if 0 <= l.write + size < |l.mem| then Compact(l.(write := l.write + size)) else l
  }

  predicate CanMoveRead(l: Layout, size: int) {
    l.Valid() && (0 <= l.read + size < |l.mem| ==> l.read + size <= l.write)
  }

  /** adjust_read_index; a target of capacity or more, or a negative one, is refused. */
  function MoveRead(l: Layout, size: int): (r: Layout)
    requires CanMoveRead(l, size)
    ensures r.Valid() && |r.mem| == |l.mem|
    ensures 0 <= l.read + size < |l.mem| ==> r.Tidy() && r.Unread() == l.mem[l.read + size..l.write]
    ensures !(0 <= l.read + size < |l.mem|) ==> r == l
    ensures l.Tidy() ==> r.Tidy()
    ensures r.write <= l.write
  {
    if 0 <= l.read + size < |l.mem| then Compact(l.(read := l.read + size)) else l
  }

  /** The capacity after write_to_buffer, 1.5 * (write + size) truncated, has to be an int. */
  predicate CanAppend(l: Layout, size: nat) {
    l.Valid() && (size > |l.mem| - l.write ==> (l.write + size) * 3 / 2 <= INT_MAX)
  }

  function Grow(l: Layout, size: nat): (r: Layout)
    requires CanAppend(l, size)
    ensures r.Valid() && r.Unread() == l.Unread() && size <= r.Free()
    ensures l.Tidy() ==> r.Tidy()
    ensures |r.mem| >= |l.mem|
  {
    if size > l.Free() then Resize(l, (l.write + size) * 3 / 2) else l
  }

  /** Bytes that write_to_buffer copies into a larger vector. */
  function GrowCost(l: Layout, size: nat): nat
    requires l.Valid()
  {
    if size > l.Free() then |l.Unread()| else 0
  }

  /** write_to_buffer */
  function Append(l: Layout, data: Bytes): (r: Layout)
    requires CanAppend(l, |data|)
    ensures r.Valid() && r.Unread() == l.Unread() + data
    ensures l.Tidy() ==> r.Tidy()
    ensures |r.mem| >= |l.mem|
    ensures |data| <= l.Free() ==> |r.mem| == |l.mem|
    ensures |data| > l.Free() ==> 2 * |r.mem| <= 3 * (l.write + |data|) < 2 * |r.mem| + 2
  {
    var g := Grow(l, |data|);
    var r := Layout(Splice(g.mem, g.write, data), g.read, g.write + |data|);
    assert r.Unread() == g.Unread() + data;
    r
  }

  /** read_from_buffer: the layout afterwards; the bytes handed out are the first ones. */
  function Take(l: Layout, size: nat): (r: Layout)
    requires l.Valid()
    ensures r.Valid() && r.Unread() == l.Unread()[Min(size, |l.Unread()|)..]
    ensures l.Tidy() ==> r.Tidy()
    ensures |r.mem| == |l.mem|
  {
    if |l.Unread()| == 0 then l else Compact(l.(read := l.read + Min(size, |l.Unread()|)))
  }

  lemma TakeKeepsAll(l: Layout, size: nat)
    requires l.Valid()
    ensures l.Unread()[..Min(size, |l.Unread()|)] + Take(l, size).Unread() == l.Unread()
  {
  }

  /** One read(2) into the free region followed by adjust_write_index. */
  function Receive(l: Layout, data: Bytes): (r: Layout)
    requires l.Valid() && |data| <= l.Free()
    ensures r.Valid() && |r.mem| == |l.mem|
    ensures |data| < l.Free() ==> r.Tidy() && r.Unread() == l.Unread() + data && r.write < |r.mem|
    ensures |data| == l.Free() ==> r.Unread() == l.Unread()
    ensures l.Tidy() ==> r.Tidy()
    ensures l.write < |l.mem| ==> r.write < |r.mem|
  {
    var f := l.(mem := Splice(l.mem, l.write, data));
    assert f.mem[f.read..f.write + |data|] == l.Unread() + data;
    assert f.Unread() == l.Unread();
    MoveWrite(f, |data|)
  }

  /* ----- Whole runs ----- */

  /** The calls a connection makes on its buffers. */
  datatype Op =
    | Write(data: Bytes)      // write_to_buffer
    | ReadOut(size: nat)      // read_from_buffer
    | Skip(size: nat)         // adjust_read_index
    | Retract(size: nat)      // adjust_write_index with a negative size
    | Fill(data: Bytes)       // read(2), then adjust_write_index
    | Double                  // resize_buffer(2 * size), as on_read does

  /** A buffer together with what the run has handed out and what it has cost so far. */
  datatype Trace = Trace(layout: Layout, out: Bytes, grown: nat, compacted: nat, consumed: nat)

  predicate InRange(l: Layout, op: Op) {
    l.Valid() && match op
      case Write(data) => CanAppend(l, |data|)
      case ReadOut(_) => true
      case Skip(n) => n <= |l.Unread()| && l.read + n < |l.mem|
      case Retract(n) => n <= |l.Unread()| && l.write - n < |l.mem|
      case Fill(data) => |data| < l.Free()
      case Double => 2 * |l.mem| <= INT_MAX
  }

  function StepLayout(l: Layout, op: Op): (r: Layout)
    requires InRange(l, op)
    ensures r.Valid()
    ensures l.Tidy() ==> r.Tidy()
    ensures |r.mem| >= |l.mem|
  {
    match op
    case Write(data) => Append(l, data)
    case ReadOut(n) => Take(l, n)
    case Skip(n) => MoveRead(l, n)
    case Retract(n) => MoveWrite(l, 0 - n)
    case Fill(data) => Receive(l, data)
    case Double => Resize(l, 2 * |l.mem|)
  }

  /** Bytes removed from the front of the queue by op. */
  function Removed(q: Bytes, op: Op): (n: nat)
    requires op.Skip? ==> op.size <= |q|
    ensures n <= |q|
  {
    match op
    case ReadOut(n) => Min(n, |q|)
    case Skip(n) => n
    case _ => 0
  }

  /** Bytes copied into a larger vector by op. */
  function Grown(l: Layout, op: Op): nat
    requires InRange(l, op)
  {
    match op
    case Write(data) => GrowCost(l, |data|)
    case Double => |l.Unread()|
    case _ => 0
  }

  /** Bytes copied to the front of the vector by op, once it has moved its index. */
  function Compacted(l: Layout, op: Op): nat
    requires InRange(l, op)
  {
    match op
    case Write(_) => 0
    case Double => 0
    case Fill(data) => CompactCost(l.(write := l.write + |data|))
    case ReadOut(n) => if |l.Unread()| == 0 then 0 else CompactCost(l.(read := l.read + Removed(l.Unread(), op)))
    case Skip(n) => CompactCost(l.(read := l.read + n))
    case Retract(n) => CompactCost(l.(write := l.write - n))
  }

  function Step(t: Trace, op: Op): (r: Trace)
    requires InRange(t.layout, op)
  {
    var q := t.layout.Unread();
    var k := Removed(q, op);
    Trace(StepLayout(t.layout, op),
          if op.ReadOut? then t.out + q[..k] else t.out,
          t.grown + Grown(t.layout, op),
          t.compacted + Compacted(t.layout, op),
          t.consumed + k)
  }

  predicate Runnable(t: Trace, ops: seq<Op>)
    decreases |ops|
  {
    ops == [] || (InRange(t.layout, ops[0]) && Runnable(Step(t, ops[0]), ops[1..]))
  }

  function Run(t: Trace, ops: seq<Op>): Trace
    requires Runnable(t, ops)
    decreases |ops|
  {
    if ops == [] then t else Run(Step(t, ops[0]), ops[1..])
  }

  /** The reference: an unbounded first-in first-out queue of bytes. */
  datatype ByteQueue = ByteQueue(content: Bytes, out: Bytes)

  function QueueStep(q: ByteQueue, op: Op): ByteQueue {
    match op
    case Write(data) => q.(content := q.content + data)
    case Fill(data) => q.(content := q.content + data)
    case ReadOut(n) =>
      var k := Min(n, |q.content|);
      ByteQueue(q.content[k..], q.out + q.content[..k])
    case Skip(n) => q.(content := q.content[Min(n, |q.content|)..])
    case Retract(n) => q.(content := q.content[..|q.content| - Min(n, |q.content|)])
    case Double => q
  }

  function QueueRun(q: ByteQueue, ops: seq<Op>): ByteQueue
    decreases |ops|
  {
    if ops == [] then q else QueueRun(QueueStep(q, ops[0]), ops[1..])
  }

  ghost function QueueOf(t: Trace): ByteQueue
    requires t.layout.Valid()
  {
    ByteQueue(t.layout.Unread(), t.out)
  }

  /** Growth and compaction are invisible: every run of the buffer is a run of the byte queue,
      with the same content and the same bytes handed out, and the indices stay in order. */
  lemma {:induction false} RunRefinesQueue(t: Trace, ops: seq<Op>)
    requires t.layout.Valid() && Runnable(t, ops)
    ensures Run(t, ops).layout.Valid()
    ensures t.layout.Tidy() ==> Run(t, ops).layout.Tidy()
    ensures QueueOf(Run(t, ops)) == QueueRun(QueueOf(t), ops)
    decreases |ops|
  {
    if ops != [] {
      StepRefinesQueue(t, ops[0]);
      RunRefinesQueue(Step(t, ops[0]), ops[1..]);
    }
  }

  lemma StepRefinesQueue(t: Trace, op: Op)
    requires InRange(t.layout, op)
    ensures QueueOf(Step(t, op)) == QueueStep(QueueOf(t), op)
  {
    hide Splice, Compact;
    var l := t.layout;
    match op
    case Skip(n) => assert l.mem[l.read + n..l.write] == l.Unread()[n..];
    case Retract(n) => assert l.mem[l.read..l.write - n] == l.Unread()[..|l.Unread()| - n];
    case Double => assert l.Unread()[..|l.Unread()|] == l.Unread();
    case _ =>
  }

  /** What is counted as copied: all unread bytes whenever a write changes the capacity, and whenever
      a compaction moves the read index. */
  lemma CostsAreCopies(l: Layout, size: nat)
    requires CanAppend(l, size)
    ensures GrowCost(l, size) == if |Grow(l, size).mem| != |l.mem| then |l.Unread()| else 0
    ensures Compact(l).read != l.read ==> CompactCost(l) == |l.Unread()|
    ensures Compact(l) == l && l.read > 0 ==> CompactCost(l) == 0
  {
  }

  /** What the operations remove from the front of the queue. */
  function ConsumedBy(q: ByteQueue, ops: seq<Op>): nat
    decreases |ops|
  {
    if ops == [] then 0
    else
      var after := QueueStep(q, ops[0]);
      (if ops[0].ReadOut? || ops[0].Skip? then |q.content| - |after.content| else 0) + ConsumedBy(after, ops[1..])
  }

  lemma {:induction false} ConsumedIsCounted(t: Trace, ops: seq<Op>)
    requires t.layout.Valid() && Runnable(t, ops)
    ensures Run(t, ops).consumed == t.consumed + ConsumedBy(QueueOf(t), ops)
    decreases |ops|
  {
    hide StepLayout;
    if ops != [] {
      StepRefinesQueue(t, ops[0]);
      ConsumedIsCounted(Step(t, ops[0]), ops[1..]);
    }
  }

  /** Copying is paid for: growth by the capacity it creates, compaction by the bytes consumed. */
  ghost predicate Frugal(t: Trace) {
    t.layout.Tidy()
    && 3 <= |t.layout.mem|
    && t.grown <= 2 * |t.layout.mem|
    && t.compacted <= 4 * (t.consumed - t.layout.read)
  }

  /** A compaction at read index k moves at most 4 * k bytes, since k is at least a third. */
  lemma CompactionIsPaid(cap: nat, k: nat, moved: nat)
    requires 3 <= cap && cap / 3 <= k && k + moved <= cap
    ensures moved <= 4 * k
  {
  }

  lemma StepStaysFrugal(t: Trace, op: Op)
    requires Frugal(t) && InRange(t.layout, op)
    ensures Frugal(Step(t, op))
  {
    var l := t.layout;
    match op
    case Write(data) =>
      if |data| > l.Free() {
        var l' := Resize(l, (l.write + |data|) * 3 / 2);
        assert 2 * |l'.mem| >= 3 * |l.mem|;
      }
    case ReadOut(n) => FrontStepStaysFrugal(t, op);
    case Skip(n) => FrontStepStaysFrugal(t, op);
    case Retract(n) =>
    case Fill(data) =>
    case Double =>
  }

  lemma FrontStepStaysFrugal(t: Trace, op: Op)
    requires Frugal(t) && InRange(t.layout, op) && (op.ReadOut? || op.Skip?)
    ensures Frugal(Step(t, op))
  {
    var l := t.layout;
    var k := l.read + Removed(l.Unread(), op);
    if |l.mem| / 3 <= k {
      CompactionIsPaid(|l.mem|, k, l.write - k);
    }
  }

  /** In every run from a fresh buffer of at least three bytes, all growth together moves at most
      twice the current capacity, all compaction together moves at most four times the bytes
      consumed, and the read index stays in the first third. */
  lemma {:induction false} RunStaysFrugal(t: Trace, ops: seq<Op>)
    requires Frugal(t) && Runnable(t, ops)
    ensures Frugal(Run(t, ops))
    ensures var e := Run(t, ops); e.compacted <= 4 * e.consumed && e.layout.read < |e.layout.mem| / 3
    decreases |ops|
  {
    if ops != [] {
      StepStaysFrugal(t, ops[0]);
      RunStaysFrugal(Step(t, ops[0]), ops[1..]);
    }
  }

  lemma FreshIsFrugal(size: nat)
    requires 3 <= size <= INT_MAX
    ensures Frugal(Trace(Fresh(size), [], 0, 0, 0))
  {
  }

  /** Every run of a new buffer: copying is paid for, and the bytes handed out, followed by those
      unread, are what the byte queue says. */
  lemma EveryBufferIsSound(size: nat, ops: seq<Op>)
    requires 3 <= size <= INT_MAX && Runnable(Trace(Fresh(size), [], 0, 0, 0), ops)
    ensures var e := Run(Trace(Fresh(size), [], 0, 0, 0), ops);
            && e.layout.Tidy()
            && QueueOf(e) == QueueRun(ByteQueue([], []), ops)
            && e.grown <= 2 * |e.layout.mem| && e.compacted <= 4 * e.consumed
            && e.consumed == ConsumedBy(ByteQueue([], []), ops)
  {
    FreshIsFrugal(size);
    var t := Trace(Fresh(size), [], 0, 0, 0);
    RunStaysFrugal(t, ops);
    RunRefinesQueue(t, ops);
    ConsumedIsCounted(t, ops);
    assert QueueOf(t) == ByteQueue([], []);
  }

  /* ----- The buffer object ----- */

  /** std::memcpy(&dst[at], src, |src|) */
  method MemCpy(dst: array<byte>, at: nat, src: Bytes)
    requires at + |src| <= dst.Length
    modifies dst
    ensures dst[..] == Splice(old(dst[..]), at, src)
  {
    for k := 0 to |src|
      invariant dst[..at] == old(dst[..at])
      invariant dst[at..at + k] == src[..k]
      invariant dst[at + k..] == old(dst[at + k..])
    {
      dst[at + k] := src[k];
      assert dst[at..at + k + 1] == dst[at..at + k] + [src[k]];
      assert dst[at + k + 1..] == old(dst[at + k..])[1..];
    }
    assert dst[..] == dst[..at] + dst[at..at + |src|] + dst[at + |src|..];
  }

  class TcpBuffer {
    var buf: array<byte>
    var readIndex: nat
    var writeIndex: nat
    ghost var grown: nat      // bytes copied into larger vectors so far
    ghost var compacted: nat  // bytes copied to the front of the vector so far

    ghost predicate Valid()
      reads this, buf
    {
      View().Valid()
    }

    ghost function View(): Layout
      reads this, buf
    {
      Layout(buf[..], readIndex, writeIndex)
    }

    constructor (size: nat)
      requires size <= INT_MAX
      ensures fresh(buf) && View() == Fresh(size) && grown == compacted == 0
    {
      buf := new byte[size](_ => 0);
      readIndex, writeIndex := 0, 0;
      grown, compacted := 0, 0;
      new;
      assert buf[..] == Zeros(size);
    }

    method WriteToBuffer(data: Bytes)
      requires Valid() && CanAppend(View(), |data|)
      modifies this, buf
      ensures Valid() && (buf == old(buf) || fresh(buf))
      ensures View() == Append(old(View()), data)
      ensures grown == old(grown) + GrowCost(old(View()), |data|) && compacted == old(compacted)
    {
      if |data| > buf.Length - writeIndex {
        ResizeBuffer((writeIndex + |data|) * 3 / 2);
      }
      MemCpy(buf, writeIndex, data);
      writeIndex := writeIndex + |data|;
    }

    method ResizeBuffer(newSize: nat)
      requires Valid() && newSize <= INT_MAX
      modifies this
      ensures Valid() && fresh(buf)
      ensures View() == Resize(old(View()), newSize)
      ensures grown == old(grown) + Min(newSize, |old(View()).Unread()|) && compacted == old(compacted)
    {
      var newBuffer := new byte[newSize](_ => 0);
      var count := Min(newSize, writeIndex - readIndex);
      var kept := buf[readIndex..writeIndex][..count];
      assert newBuffer[..] == Zeros(newSize);
      MemCpy(newBuffer, 0, kept);
      SpliceIntoZeros(newSize, kept);
      grown := grown + |kept|;
      buf := newBuffer;
      readIndex := 0;
      writeIndex := readIndex + count;
    }

    /** Empty when there is nothing unread; the source then leaves the caller's vector as it is. */
    method ReadFromBuffer(size: nat) returns (taken: Bytes)
      requires Valid()
      modifies this
      ensures Valid() && (buf == old(buf) || fresh(buf))
      ensures View() == Take(old(View()), size)
      ensures taken + View().Unread() == old(View().Unread())
      ensures |taken| == Min(size, |old(View().Unread())|)
      ensures grown == old(grown)
      ensures compacted == old(compacted) + if old(writeIndex == readIndex) then 0
                                            else CompactCost(old(View()).(read := old(readIndex) + |taken|))
    {
      hide Compact;
      taken := [];
      if writeIndex - readIndex == 0 {
        return;
      }
      var readSize := Min(size, writeIndex - readIndex);
      taken := buf[readIndex..readIndex + readSize];
      TakeKeepsAll(View(), size);
      assert taken == View().Unread()[..readSize];
      readIndex := readIndex + readSize;
      AdjustBuffer();
    }

    /** read(2) into the free region, then adjust_write_index. */
    method ReceiveBytes(data: Bytes)
      requires Valid() && |data| <= View().Free()
      modifies this, buf
      ensures Valid() && (buf == old(buf) || fresh(buf))
      ensures View() == Receive(old(View()), data)
    {
      MemCpy(buf, writeIndex, data);
      AdjustWriteIndex(|data|);
    }

    method AdjustReadIndex(size: int)
      requires CanMoveRead(View(), size)
      modifies this
      ensures Valid() && (buf == old(buf) || fresh(buf))
      ensures View() == MoveRead(old(View()), size)
      ensures grown == old(grown)
      ensures compacted == old(compacted) + if 0 <= old(readIndex) + size < old(buf.Length)
                                            then CompactCost(old(View()).(read := old(readIndex) + size)) else 0
    {
      var j := readIndex + size;
      if j < 0 || j >= buf.Length {
        return;
      }
      readIndex := j;
      AdjustBuffer();
    }

    method AdjustWriteIndex(size: int)
      requires CanMoveWrite(View(), size)
      modifies this
      ensures Valid() && (buf == old(buf) || fresh(buf))
      ensures View() == MoveWrite(old(View()), size)
      ensures grown == old(grown)
      ensures compacted == old(compacted) + if 0 <= old(writeIndex) + size < old(buf.Length)
                                            then CompactCost(old(View()).(write := old(writeIndex) + size)) else 0
    {
      var j := writeIndex + size;
      if j < 0 || j >= buf.Length {
        return;
      }
      writeIndex := j;
      AdjustBuffer();
    }

    method AdjustBuffer()
      requires Valid()
      modifies this
      ensures Valid() && (buf == old(buf) || fresh(buf))
      ensures View() == Compact(old(View()))
      ensures grown == old(grown) && compacted == old(compacted) + CompactCost(old(View()))
    {
      if readIndex < buf.Length / 3 {
        return;
      }
      var newBuffer := new byte[buf.Length](_ => 0);
      var count := writeIndex - readIndex;
      var kept := buf[readIndex..writeIndex];
      assert newBuffer[..] == Zeros(buf.Length);
      MemCpy(newBuffer, 0, kept);
      SpliceIntoZeros(buf.Length, kept);
      compacted := compacted + |kept|;
      buf := newBuffer;
      readIndex := 0;
      writeIndex := readIndex + count;
    }
  }
}
