/** The wire format: what one message looks like on the wire, and how the decoder takes the
    fields of one frame out of the buffer memory. */
module ProtobufFrames {
  import opened Bytes

  const START: byte := 0x02
  const END: byte := 0x03

  /** "123456789", the id given to a message that has none. */
  const DEFAULT_ID: Bytes := [49, 50, 51, 52, 53, 54, 55, 56, 57]

  /** ProtobufProtocol. The length fields and parseSuccess are filled in by the coder. */
  datatype Message = Message(
    msgId: Bytes, methodName: Bytes, errCode: int, errInfo: Bytes, pbData: Bytes,
    pkLen: int, msgIdLen: int, methodNameLen: int, errInfoLen: int,
    checkSum: int, parseSuccess: bool)

  function WireId(m: Message): (id: Bytes)
    ensures id != []
  {
    if m.msgId == [] then DEFAULT_ID else m.msgId
  }

  function PkLen(m: Message): (n: nat)
    ensures n > 26
  {
    2 + 24 + |WireId(m)| + |m.methodName| + |m.errInfo| + |m.pbData|
  }

  /** The message can be framed at all: its length and its error code are 32-bit integers. */
  predicate Framable(m: Message) {
    PkLen(m) <= INT_MAX && IsInt32(m.errCode)
  }

  function Field(text: Bytes): (s: Bytes)
    requires |text| <= INT_MAX
    ensures |s| == 4 + |text|
  {
    EncodeInt32(|text|) + text
  }

  function Header(m: Message): (s: Bytes)
    requires Framable(m)
    ensures |s| == 5
  {
    [START] + EncodeInt32(PkLen(m))
  }

  const TRAILER: Bytes := EncodeInt32(1) + [END]

  /** The frame of a message, as the header comment of the protocol lays it out. */
  function Frame(m: Message): (s: Bytes)
    requires Framable(m)
    ensures |s| == PkLen(m)
  {
    Header(m) + Field(WireId(m)) + Field(m.methodName) + EncodeInt32(m.errCode) + Field(m.errInfo)
    + m.pbData + TRAILER
  }

  predicate AllFramable(ms: seq<Message>) {
    forall m :: m in ms ==> Framable(m)
  }

  /** A batch on the wire: the frames back to back. */
  function Stream(ms: seq<Message>): (s: Bytes)
    requires AllFramable(ms)
    ensures ms != [] ==> |s| > 26
  {
    if ms == [] then [] else Frame(ms[0]) + Stream(ms[1..])
  }

  /** The message object as encode leaves it. */
  function Stamped(m: Message): Message {
    m.(msgId := WireId(m), pkLen := PkLen(m), msgIdLen := |WireId(m)|,
       methodNameLen := |m.methodName|, errInfoLen := |m.errInfo|, parseSuccess := true)
  }

  /** The message object the receiver should get; the checksum is not decoded. */
  function Received(m: Message): Message {
    Stamped(m).(checkSum := 0)
  }

  function ReceivedAll(ms: seq<Message>): (rs: seq<Message>)
    ensures |rs| == |ms| && forall k :: 0 <= k < |ms| ==> rs[k] == Received(ms[k])
  {
    seq(|ms|, k requires 0 <= k < |ms| => Received(ms[k]))
  }

  /** What survives the fixed arrays of 100, 512 and 512 bytes and their conversion to
      std::string: texts that leave room for the terminator and contain none. */
  predicate Fits(m: Message) {
    |WireId(m)| <= 99 && |m.methodName| <= 511 && |m.errInfo| <= 511
    && 0 !in WireId(m) && 0 !in m.methodName && 0 !in m.errInfo
  }

  predicate Encodable(m: Message) {
    Framable(m) && Fits(m)
  }

  predicate AllEncodable(ms: seq<Message>)
    ensures AllEncodable(ms) ==> AllFramable(ms)
  {
    forall m :: m in ms ==> Encodable(m)
  }

  /* ----- Taking a frame apart ----- */

  datatype Option<T> = None | Some(value: T)

  /** get_int32_from_netbyte at a position of the memory; None outside it. */
  function ReadInt32(mem: Bytes, at: nat): (r: Option<int>)
    ensures r.Some? ==> IsInt32(r.value)
  {
    if at + 4 <= |mem| then Some(DecodeInt32(mem[at..at + 4])) else None
  }

  function UpToNul(s: Bytes): (r: Bytes)
    ensures |r| <= |s| && (r == s <==> 0 !in s)
  {
    if s == [] || s[0] == 0 then [] else [s[0]] + UpToNul(s[1..])
  }

  /** memcpy of len bytes into a zeroed char[size], then std::string of that array. None where
      the copy leaves either array, or where the array then holds no terminator. */
  function ReadText(mem: Bytes, at: nat, len: int, size: nat): (r: Option<Bytes>)
    ensures r.Some? ==> 0 <= len <= size
  {
    if len < 0 || len > size || at + len > |mem| then None
    else if len == size && 0 !in mem[at..at + len] then None
    else Some(UpToNul(mem[at..at + len]))
  }

  /** Rejected is the branch that logs and goes on without a message; Undefined is an access
      outside an array. */
  datatype ParseResult = Parsed(message: Message) | Rejected | Undefined

  function ParseFrame(mem: Bytes, start: nat, end: int, pkLen: int): ParseResult {
    if start + 5 >= end then Rejected else
    var idLen := ReadInt32(mem, start + 5);
    if idLen.None? then Undefined else
    var id := ReadText(mem, start + 9, idLen.value, 100);
    if id.None? then Undefined else

    var nameAt := start + 9 + idLen.value;
    if nameAt >= end then Rejected else
    var nameLen := ReadInt32(mem, nameAt);
    if nameLen.None? then Undefined else
    var name := ReadText(mem, nameAt + 4, nameLen.value, 512);
    if name.None? then Undefined else

    var codeAt := nameAt + 4 + nameLen.value;
    if codeAt >= end then Rejected else
    var code := ReadInt32(mem, codeAt);
    if code.None? then Undefined else

    var infoAt := codeAt + 4;
    if infoAt >= end then Rejected else
    var infoLen := ReadInt32(mem, infoAt);
    if infoLen.None? then Undefined else
    var info := ReadText(mem, infoAt + 4, infoLen.value, 512);
    if info.None? then Undefined else

    var dataAt := infoAt + 4 + infoLen.value;
    var dataLen := pkLen - nameLen.value - idLen.value - infoLen.value - 2 - 24;
    if dataLen < 0 || dataAt + dataLen > |mem| then Undefined else
    Parsed(Message(id.value, name.value, code.value, info.value, mem[dataAt..dataAt + dataLen],
                   pkLen, idLen.value, nameLen.value, infoLen.value, 0, true))
  }

  /** s lies in mem at position at. */
  predicate Has(mem: Bytes, at: nat, s: Bytes) {
    at + |s| <= |mem| && mem[at..at + |s|] == s
  }

  predicate FrameAt(mem: Bytes, at: nat, m: Message) {
    Framable(m) && Has(mem, at, Frame(m))
  }

  lemma HasSplit(mem: Bytes, at: nat, a: Bytes, b: Bytes)
    requires Has(mem, at, a + b)
    ensures Has(mem, at, a) && Has(mem, at + |a|, b)
  {
    assert mem[at..at + |a|] == mem[at..at + |a + b|][..|a|];
    assert mem[at + |a|..at + |a| + |b|] == mem[at..at + |a + b|][|a|..];
  }

  lemma HasPart(mem: Bytes, at: nat, s: Bytes, from: nat, until: nat)
    requires Has(mem, at, s) && from <= until <= |s|
    ensures mem[at + from..at + until] == s[from..until]
  {
    assert s == s[..from] + s[from..until] + s[until..];
    HasSplit(mem, at, s[..from] + s[from..until], s[until..]);
    HasSplit(mem, at, s[..from], s[from..until]);
  }

  lemma HasInt32(mem: Bytes, at: nat, x: int)
    requires IsInt32(x) && Has(mem, at, EncodeInt32(x))
    ensures ReadInt32(mem, at) == Some(x)
  {
    Int32RoundTrip(x);
  }

  /** A length-prefixed text reads back as written exactly when it fits its array. */
  lemma HasField(mem: Bytes, at: nat, text: Bytes, size: nat)
    requires |text| <= INT_MAX && Has(mem, at, Field(text))
    ensures ReadInt32(mem, at) == Some(|text|)
    ensures ReadText(mem, at + 4, |text|, size) == Some(text) <==> |text| < size && 0 !in text
  {
    HasSplit(mem, at, EncodeInt32(|text|), text);
    HasInt32(mem, at, |text|);
  }

  /** Where the parts of a frame are. */
  lemma FrameParts(mem: Bytes, at: nat, m: Message)
    requires FrameAt(mem, at, m)
    ensures var a := at + 9 + |WireId(m)|;
            var b := a + 4 + |m.methodName|;
            var c := b + 8 + |m.errInfo|;
            && Has(mem, at, Header(m))
            && Has(mem, at + 5, Field(WireId(m)))
            && Has(mem, a, Field(m.methodName))
            && Has(mem, b, EncodeInt32(m.errCode))
            && Has(mem, b + 4, Field(m.errInfo))
            && Has(mem, c, m.pbData)
            && Has(mem, c + |m.pbData|, TRAILER)
  {
    var h1 := Header(m) + Field(WireId(m));
    var h2 := h1 + Field(m.methodName);
    var h3 := h2 + EncodeInt32(m.errCode);
    var h4 := h3 + Field(m.errInfo);
    var h5 := h4 + m.pbData;
    HasSplit(mem, at, h5, TRAILER);
    HasSplit(mem, at, h4, m.pbData);
    HasSplit(mem, at, h3, Field(m.errInfo));
    HasSplit(mem, at, h2, EncodeInt32(m.errCode));
    HasSplit(mem, at, h1, Field(m.methodName));
    HasSplit(mem, at, Header(m), Field(WireId(m)));
  }

  /** What the scan looks at: start marker, length, end marker. */
  lemma FrameMarkers(mem: Bytes, at: nat, m: Message)
    requires FrameAt(mem, at, m)
    ensures mem[at] == START && mem[at + PkLen(m) - 1] == END
    ensures ReadInt32(mem, at + 1) == Some(PkLen(m))
  {
    FrameParts(mem, at, m);
    HasSplit(mem, at, [START], EncodeInt32(PkLen(m)));
    HasInt32(mem, at + 1, PkLen(m));
    var p := at + PkLen(m) - 5;
    assert mem[p..p + 5][4] == TRAILER[4];
    assert mem[at..at + 1][0] == START;
  }

  /** What ParseFrame returns once the four integers are known and the positions are in bounds. */
  lemma ParseWithLengths(mem: Bytes, at: nat, pkLen: nat, idLen: nat, nameLen: nat,
                         code: int, infoLen: nat, dataLen: nat)
    requires pkLen == 26 + idLen + nameLen + infoLen + dataLen && at + pkLen <= |mem|
    requires ReadInt32(mem, at + 5) == Some(idLen)
    requires ReadInt32(mem, at + 9 + idLen) == Some(nameLen)
    requires ReadInt32(mem, at + 13 + idLen + nameLen) == Some(code)
    requires ReadInt32(mem, at + 17 + idLen + nameLen) == Some(infoLen)
    ensures var dataAt := at + 21 + idLen + nameLen + infoLen;
            var id := ReadText(mem, at + 9, idLen, 100);
            var name := ReadText(mem, at + 13 + idLen, nameLen, 512);
            var info := ReadText(mem, at + 21 + idLen + nameLen, infoLen, 512);
            ParseFrame(mem, at, at + pkLen - 1, pkLen)
            == if id.None? || name.None? || info.None? then Undefined
               else Parsed(Message(id.value, name.value, code, info.value, mem[dataAt..dataAt + dataLen],
                                   pkLen, idLen, nameLen, infoLen, 0, true))
  {
    hide ReadText, ReadInt32;
  }

  /** The fields of m lie in the memory behind a start marker at start: each length in front of its text,
      every length before the end marker, and the payload as long as the rest of the length says. */
  predicate Lies(mem: Bytes, start: nat, end: int, m: Message) {
    && 0 <= m.msgIdLen && 0 <= m.methodNameLen && 0 <= m.errInfoLen
    && var a := start + 9 + m.msgIdLen;
    && var b := a + 4 + m.methodNameLen;
    && var c := b + 8 + m.errInfoLen;
    && start + 5 < end && a < end && b < end && b + 4 < end
    && ReadInt32(mem, start + 5) == Some(m.msgIdLen) && ReadText(mem, start + 9, m.msgIdLen, 100) == Some(m.msgId)
    && ReadInt32(mem, a) == Some(m.methodNameLen) && ReadText(mem, a + 4, m.methodNameLen, 512) == Some(m.methodName)
    && ReadInt32(mem, b) == Some(m.errCode)
    && ReadInt32(mem, b + 4) == Some(m.errInfoLen) && ReadText(mem, b + 8, m.errInfoLen, 512) == Some(m.errInfo)
    && m.pkLen == 26 + m.msgIdLen + m.methodNameLen + m.errInfoLen + |m.pbData|
    && Has(mem, c, m.pbData) && m.checkSum == 0 && m.parseSuccess
  }

  /** Any bytes: a message is taken out of them if and only if its fields lie there. */
  lemma ParsedIffLies(mem: Bytes, start: nat, end: int, pkLen: int, m: Message)
    ensures ParseFrame(mem, start, end, pkLen) == Parsed(m) <==> m.pkLen == pkLen && Lies(mem, start, end, m)
  {
    hide ReadInt32, ReadText;
  }

  /** The fields in front are there, and the next one would begin at the end marker or behind it. */
  predicate CutOff(mem: Bytes, start: nat, end: int) {
    start + 5 >= end
    || (var id := ReadInt32(mem, start + 5);
        && id.Some? && ReadText(mem, start + 9, id.value, 100).Some?
        && var a := start + 9 + id.value;
           (a >= end
            || (var name := ReadInt32(mem, a);
                && name.Some? && ReadText(mem, a + 4, name.value, 512).Some?
                && var b := a + 4 + name.value;
                   (b >= end || (ReadInt32(mem, b).Some? && b + 4 >= end)))))
  }

  lemma RejectedIffCutOff(mem: Bytes, start: nat, end: int, pkLen: int)
    ensures ParseFrame(mem, start, end, pkLen) == Rejected <==> CutOff(mem, start, end)
  {
    hide ReadInt32, ReadText;
  }

  /** One frame, wherever it lies: the decoder rebuilds the message exactly when its texts fit
      the fixed arrays. */
  lemma ParseRoundTrip(mem: Bytes, at: nat, m: Message)
    requires FrameAt(mem, at, m)
    ensures ParseFrame(mem, at, at + PkLen(m) - 1, PkLen(m)) == Parsed(Received(m)) <==> Fits(m)
  {
    hide ReadText, ReadInt32, ParseFrame, Frame, Field, Header, EncodeInt32;
    FrameParts(mem, at, m);
    var a := at + 9 + |WireId(m)|;
    var b := a + 4 + |m.methodName|;
    HasField(mem, at + 5, WireId(m), 100);
    HasField(mem, a, m.methodName, 512);
    HasInt32(mem, b, m.errCode);
    HasField(mem, b + 4, m.errInfo, 512);
    ParseWithLengths(mem, at, PkLen(m), |WireId(m)|, |m.methodName|, m.errCode, |m.errInfo|, |m.pbData|);
  }
}
