/** Message framing (src/net.h, src/net.cpp): the send queue with partial writes, and the receiver
    that is fed arbitrary chunks of the byte stream. */
module Framing {
  import opened Arithmetic
  import opened Basics
  import opened BigNum

  const HEADER_SIZE := 24
  const MESSAGE_SIZE_OFFSET := 16
  const CHECKSUM_OFFSET := 20
  const MAX_SIZE := 0x0200_0000

  type Bytes = seq<Byte>

  // ----- frames

  /** The memory of an unsigned int; wider numbers lose their high bits. */
  function Le32(n: nat): (s: Bytes)
    ensures |s| == 4
  {
    [n % 256, n / 256 % 256, n / 65536 % 256, n / 0x100_0000 % 256]
  }

  function FromLe32(s: Bytes): nat
    requires |s| == 4
  {
    var a: nat, b: nat, c: nat, d: nat := s[0], s[1], s[2], s[3];
    a + 256 * b + 65536 * c + 0x100_0000 * d
  }

  lemma Le32RoundTrip(n: nat)
    requires n < TWO_32
    ensures FromLe32(Le32(n)) == n
  {
    var a := n / 256;
    var b := a / 256;
    assert n / 65536 == b && n / 0x100_0000 == b / 256;
  }

  /** nMessageSize of a complete header. */
  function SizeField(s: Bytes): nat
    requires |s| >= HEADER_SIZE
  {
    FromLe32(s[MESSAGE_SIZE_OFFSET..CHECKSUM_OFFSET])
  }

  /** A whole message: its header announces exactly the bytes that follow. */
  predicate WellFramed(f: Bytes) {
    |f| >= HEADER_SIZE && SizeField(f) <= MAX_SIZE && |f| == HEADER_SIZE + SizeField(f)
  }

  /** The beginning of a message. */
  predicate Partial(r: Bytes) {
    |r| < HEADER_SIZE || (SizeField(r) <= MAX_SIZE && |r| < HEADER_SIZE + SizeField(r))
  }

  predicate AllFramed(fs: seq<Bytes>) {
    forall i | 0 <= i < |fs| :: WellFramed(fs[i])
  }

  function Concat(fs: seq<Bytes>): Bytes {
    if fs == [] then [] else fs[0] + Concat(fs[1..])
  }

  lemma {:induction false} ConcatAppend(fs: seq<Bytes>, gs: seq<Bytes>)
    ensures Concat(fs + gs) == Concat(fs) + Concat(gs)
  {
    if fs == [] {
      assert fs + gs == gs;
    } else {
      ConcatAppend(fs[1..], gs);
      assert (fs + gs)[1..] == fs[1..] + gs;
      assert fs[0] + (Concat(fs[1..]) + Concat(gs)) == (fs[0] + Concat(fs[1..])) + Concat(gs);
    }
  }

  lemma {:induction false} ConcatSnoc(fs: seq<Bytes>, g: Bytes)
    ensures Concat(fs + [g]) == Concat(fs) + g
  {
    ConcatAppend(fs, [g]);
    assert Concat([g]) == g + Concat([]);
  }

  // ----- what a whole byte stream means

  datatype Parsed = Parsed(frames: seq<Bytes>, rest: Bytes) | TooLarge

  /** The stream cut into messages, all at once. */
  function Split(s: Bytes): Parsed {
    if |s| < HEADER_SIZE then Parsed([], s)
    else if SizeField(s) > MAX_SIZE then TooLarge
    else
      var n := HEADER_SIZE + SizeField(s);
      if |s| < n then Parsed([], s)
      else
        match Split(s[n..])
        case TooLarge => TooLarge
        case Parsed(fs, rest) => Parsed([s[..n]] + fs, rest)
  }

  function Prepend(fs: seq<Bytes>, p: Parsed): Parsed {
    if p.TooLarge? then TooLarge else Parsed(fs + p.frames, p.rest)
  }

  lemma {:induction false} SplitFrame(f: Bytes, s: Bytes)
    requires WellFramed(f)
    ensures Split(f + s) == Prepend([f], Split(s))
  {
    var t := f + s;
    assert t[MESSAGE_SIZE_OFFSET..CHECKSUM_OFFSET] == f[MESSAGE_SIZE_OFFSET..CHECKSUM_OFFSET];
    assert t[..|f|] == f && t[|f|..] == s;
  }

  lemma {:induction false} SplitFrames(fs: seq<Bytes>, s: Bytes)
    requires AllFramed(fs)
    ensures Split(Concat(fs) + s) == Prepend(fs, Split(s))
  {
    hide Split, WellFramed;
    if fs == [] {
      assert Concat(fs) + s == s;
      assert Split(s).Parsed? ==> [] + Split(s).frames == Split(s).frames;
    } else {
      SplitFrames(fs[1..], s);
      SplitFrame(fs[0], Concat(fs[1..]) + s);
      assert Concat(fs) + s == fs[0] + (Concat(fs[1..]) + s);
      assert Split(s).Parsed? ==> [fs[0]] + (fs[1..] + Split(s).frames) == fs + Split(s).frames;
    }
  }

  lemma {:induction false} SplitPartial(r: Bytes)
    requires Partial(r)
    ensures Split(r) == Parsed([], r)
  {
  }

  /** Any prefix of a sequence of whole messages is cut into the first few of them, unchanged. */
  lemma {:induction false} SplitPrefix(fs: seq<Bytes>, s: Bytes) returns (k: nat)
    requires AllFramed(fs) && s <= Concat(fs)
    ensures k <= |fs| && Split(s).Parsed? && Split(s).frames == fs[..k]
    ensures s == Concat(fs[..k]) + Split(s).rest
    ensures k < |fs| ==> Split(s).rest < fs[k]
    ensures k == |fs| ==> Split(s).rest == []
  {
    hide Split, WellFramed;
    if fs == [] {
      assert s == [];
      SplitPartial(s);
      k := 0;
    } else {
      var f := fs[0];
      var more := Concat(fs[1..]);
      assert Concat(fs) == f + more;
      if |s| < |f| {
        assert s == (f + more)[..|s|] == f[..|s|];
        PartialPrefix(f, s);
        SplitPartial(s);
        k := 0;
        assert Concat(fs[..0]) + s == s;
      } else {
        var t := s[|f|..];
        PrefixTail(f, more, s);
        var j := SplitPrefix(fs[1..], t);
        SplitFrame(f, t);
        k := j + 1;
        ConcatTake(fs, j);
        var rest := Split(t).rest;
        assert Split(s).rest == rest;
        assert s == f + (Concat(fs[1..][..j]) + rest);
        assert s == Concat(fs[..k]) + rest;
      }
    }
  }

  lemma ConcatTake(fs: seq<Bytes>, j: nat)
    requires fs != [] && j <= |fs| - 1
    ensures fs[..j + 1] == [fs[0]] + fs[1..][..j]
    ensures Concat(fs[..j + 1]) == fs[0] + Concat(fs[1..][..j])
  {
    assert fs[..j + 1][1..] == fs[1..][..j];
  }

  lemma PartialPrefix(f: Bytes, s: Bytes)
    requires WellFramed(f) && s < f
    ensures Partial(s)
  {
    if |s| >= HEADER_SIZE {
      assert s[MESSAGE_SIZE_OFFSET..CHECKSUM_OFFSET] == f[MESSAGE_SIZE_OFFSET..CHECKSUM_OFFSET];
    }
  }

  lemma PrefixTail(f: Bytes, g: Bytes, s: Bytes)
    requires s <= f + g && |s| >= |f|
    ensures s == f + s[|f|..] && s[|f|..] <= g
  {
    assert forall i | 0 <= i < |s| :: s[i] == (f + g)[i];
    assert s[..|f|] == f;
    assert s[|f|..] == g[..|s| - |f|];
  }

  // ----- the receiver

  /** CNetMessage; buf is hdrbuf. */
  datatype NetMessage = NetMessage(inData: bool, buf: Bytes, nHdrPos: nat, size: nat, vRecv: Bytes, nDataPos: nat) {
    predicate Complete() {
      inData && size == nDataPos
    }
  }

  function NewMessage(): NetMessage {
    NetMessage(false, seq(HEADER_SIZE, _ => 0), 0, 0, [], 0)
  }

  predicate MsgOk(m: NetMessage) {
    && |m.buf| == HEADER_SIZE && m.nHdrPos <= HEADER_SIZE
    && (m.inData <==> m.nHdrPos == HEADER_SIZE)
    && (if m.inData then m.size == SizeField(m.buf) && m.size <= MAX_SIZE && m.nDataPos <= |m.vRecv| <= m.size
        else m.nDataPos == 0 && m.vRecv == [])
  }

  /** The bytes absorbed so far. */
  function Wire(m: NetMessage): Bytes
    requires MsgOk(m)
  {
    m.buf[..m.nHdrPos] + m.vRecv[..m.nDataPos]
  }

  lemma WireFramed(m: NetMessage)
    requires MsgOk(m)
    ensures m.Complete() ==> WellFramed(Wire(m)) && m.vRecv == Wire(m)[HEADER_SIZE..]
    ensures !m.Complete() ==> Partial(Wire(m))
  {
    if m.inData {
      var w := Wire(m);
      assert w[MESSAGE_SIZE_OFFSET..CHECKSUM_OFFSET] == m.buf[MESSAGE_SIZE_OFFSET..CHECKSUM_OFFSET];
    }
  }

  /** memcpy into a buffer. */
  function Overwrite(buf: Bytes, at: nat, data: Bytes): (r: Bytes)
    requires at + |data| <= |buf|
    ensures |r| == |buf|
    ensures r[..at + |data|] == buf[..at] + data
  {
    buf[..at] + data + buf[at + |data|..]
  }

  /** CNetMessage::readHeader; handled is -1 for a message that is too large. */
  method ReadHeader(m: NetMessage, chunk: Bytes) returns (r: NetMessage, handled: int)
    requires MsgOk(m) && !m.inData && chunk != []
    ensures handled == -1 || 0 < handled <= |chunk|
    ensures handled > 0 ==> MsgOk(r) && Wire(r) == Wire(m) + chunk[..handled]
    ensures handled == -1 ==>
              exists n | 0 < n <= |chunk| :: |Wire(m) + chunk[..n]| == HEADER_SIZE && SizeField(Wire(m) + chunk[..n]) > MAX_SIZE
  {
    var nRemaining := HEADER_SIZE - m.nHdrPos;
    var nCopy := Min(nRemaining, |chunk|);
    r := m.(buf := Overwrite(m.buf, m.nHdrPos, chunk[..nCopy]), nHdrPos := m.nHdrPos + nCopy);
    assert r.buf[..r.nHdrPos] == Wire(m) + chunk[..nCopy];
    if r.nHdrPos < HEADER_SIZE {
      return r, nCopy;
    }
    assert r.buf == Wire(m) + chunk[..nCopy];
    r := r.(size := SizeField(r.buf));
    if r.size > MAX_SIZE {
      return r, -1;
    }
    r := r.(inData := true);
    handled := nCopy;
  }

  /** CNetMessage::readData; the buffer is allocated up to 256 KiB ahead. */
  method ReadData(m: NetMessage, chunk: Bytes) returns (r: NetMessage, handled: int)
    requires MsgOk(m) && m.inData && !m.Complete() && chunk != []
    ensures 0 < handled <= |chunk|
    ensures MsgOk(r) && Wire(r) == Wire(m) + chunk[..handled]
  {
    var nRemaining := m.size - m.nDataPos;
    var nCopy := Min(nRemaining, |chunk|);
    r := m;
    if |r.vRecv| < r.nDataPos + nCopy {
      var n := Min(r.size, r.nDataPos + nCopy + 256 * 1024);
      r := r.(vRecv := r.vRecv + seq(n - |r.vRecv|, _ => 0));
    }
    assert r.vRecv[..r.nDataPos] == m.vRecv[..m.nDataPos];
    r := r.(vRecv := Overwrite(r.vRecv, r.nDataPos, chunk[..nCopy]), nDataPos := r.nDataPos + nCopy);
    handled := nCopy;
  }

  /** The bytes of every message in a queue. */
  function Wires(ms: seq<NetMessage>): (fs: seq<Bytes>)
    requires forall i | 0 <= i < |ms| :: MsgOk(ms[i])
    ensures |fs| == |ms| && forall i | 0 <= i < |ms| :: fs[i] == Wire(ms[i])
  {
    seq(|ms|, i requires 0 <= i < |ms| => Wire(ms[i]))
  }

  /** A receive queue: only its last message can be incomplete, and that one has begun. */
  predicate QueueOk(ms: seq<NetMessage>) {
    && (forall i | 0 <= i < |ms| :: MsgOk(ms[i]))
    && (forall i | 0 <= i < |ms| - 1 :: ms[i].Complete())
    && (ms != [] ==> Wire(ms[|ms| - 1]) != [])
  }

  /** The complete messages of a queue, and the bytes of the incomplete one. */
  function Finished(ms: seq<NetMessage>): (n: nat)
    ensures n <= |ms|
  {
    if ms != [] && !ms[|ms| - 1].Complete() then |ms| - 1 else |ms|
  }

  function Rest(ms: seq<NetMessage>): Bytes
    requires QueueOk(ms)
  {
    if Finished(ms) < |ms| then Wire(ms[|ms| - 1]) else []
  }

  lemma QueueShape(ms: seq<NetMessage>)
    requires QueueOk(ms)
    ensures AllFramed(Wires(ms)[..Finished(ms)]) && Partial(Rest(ms))
    ensures Concat(Wires(ms)) == Concat(Wires(ms)[..Finished(ms)]) + Rest(ms)
  {
    var n := Finished(ms);
    forall i | 0 <= i < n
      ensures WellFramed(Wires(ms)[..n][i])
    {
      WireFramed(ms[i]);
    }
    if n < |ms| {
      WireFramed(ms[n]);
      assert Wires(ms) == Wires(ms)[..n] + [Wire(ms[n])];
      ConcatSnoc(Wires(ms)[..n], Wire(ms[n]));
    } else {
      assert Wires(ms)[..n] == Wires(ms);
    }
  }

  class Receiver {
    var vRecvMsg: seq<NetMessage>
    /** The messages handed on to ProcessMessages so far, and the bytes received so far. */
    ghost var taken: seq<Bytes>
    ghost var stream: Bytes

    ghost predicate Valid()
      reads this
    {
      QueueOk(vRecvMsg) && AllFramed(taken) && stream == Concat(taken) + Concat(Wires(vRecvMsg))
    }

    /** Every message completed so far. */
    ghost function Completed(): seq<Bytes>
      requires Valid()
      reads this
    {
      taken + Wires(vRecvMsg)[..Finished(vRecvMsg)]
    }

    constructor ()
      ensures Valid() && stream == [] && Completed() == []
    {
      vRecvMsg, taken, stream := [], [], [];
    }

    /** The state depends on the stream alone, not on how it was cut into chunks. */
    lemma StateIsSplit()
      requires Valid()
      ensures Split(stream) == Parsed(Completed(), Rest(vRecvMsg))
    {
      hide Split, Concat, WellFramed, Partial;
      QueueShape(vRecvMsg);
      var done := Wires(vRecvMsg)[..Finished(vRecvMsg)];
      ConcatAppend(taken, done);
      assert stream == Concat(taken + done) + Rest(vRecvMsg);
      SplitPartial(Rest(vRecvMsg));
      SplitFrames(taken + done, Rest(vRecvMsg));
      assert (taken + done) + [] == taken + done;
    }

    /** CNode::ReceiveMsgBytes. */
    method ReceiveMsgBytes(chunk: Bytes) returns (ok: bool)
      requires Valid()
      modifies this
      ensures ok <==> !Split(old(stream) + chunk).TooLarge?
      ensures ok ==> Valid() && stream == old(stream) + chunk && taken == old(taken)
    {
      hide Split, QueueOk, AllFramed, Concat, Wires;
      var pos := 0;
      while pos < |chunk|
        invariant 0 <= pos <= |chunk|
        invariant Valid() && stream == old(stream) + chunk[..pos] && taken == old(taken)
      {
        var handled := Absorb(chunk[pos..]);
        if handled < 0 {
          assert old(stream) + chunk == (old(stream) + chunk[..pos]) + chunk[pos..];
          return false;
        }
        assert chunk[..pos] + chunk[pos..][..handled] == chunk[..pos + handled];
        pos := pos + handled;
      }
      assert chunk[..pos] == chunk;
      StateIsSplit();
      ok := true;
    }

    /** One turn of the loop. */
    method Absorb(chunk: Bytes) returns (handled: int)
      requires Valid() && chunk != []
      modifies this
      ensures handled == -1 || 0 < handled <= |chunk|
      ensures handled == -1 ==> Split(old(stream) + chunk).TooLarge?
      ensures handled > 0 ==> Valid() && stream == old(stream) + chunk[..handled] && taken == old(taken)
    {
      hide MsgOk, Wire, SizeField, Split, Concat, AllFramed;
      StartMessage();
      var last := |vRecvMsg| - 1;
      var m := vRecvMsg[last];
      ghost var front := Wires(vRecvMsg[..last]);
      LastWire(vRecvMsg);
      ghost var before := Concat(taken) + Concat(front);
      assert stream == before + Wire(m);
      var r;
      if !m.inData {
        r, handled := ReadHeader(m, chunk);
      } else {
        r, handled := ReadData(m, chunk);
      }
      if handled < 0 {
        HeaderTooLarge(taken, vRecvMsg[..last], Wire(m), chunk);
        assert before + (Wire(m) + chunk) == old(stream) + chunk;
        return -1;
      }
      ghost var was := vRecvMsg;
      vRecvMsg := vRecvMsg[last := r];
      stream := stream + chunk[..handled];
      assert vRecvMsg[..last] == was[..last];
      LastWire(vRecvMsg);
      assert stream == before + Wire(r);
      assert Wire(r) != [];
    }

    /** Get the current incomplete message, or create a new one. */
    method StartMessage()
      requires Valid()
      modifies this
      ensures vRecvMsg != [] && (forall i | 0 <= i < |vRecvMsg| :: MsgOk(vRecvMsg[i]))
      ensures (forall i | 0 <= i < |vRecvMsg| - 1 :: vRecvMsg[i].Complete()) && !vRecvMsg[|vRecvMsg| - 1].Complete()
      ensures stream == old(stream) && taken == old(taken)
      ensures stream == Concat(taken) + Concat(Wires(vRecvMsg))
    {
      if vRecvMsg == [] || vRecvMsg[|vRecvMsg| - 1].Complete() {
        ghost var was := vRecvMsg;
        vRecvMsg := vRecvMsg + [NewMessage()];
        LastWire(vRecvMsg);
        assert vRecvMsg[..|was|] == was;
        assert Wire(NewMessage()) == [];
      }
    }

    /** ProcessMessages erases the first n messages, all of them complete. */
    method Erase(n: nat)
      requires Valid() && n <= Finished(vRecvMsg)
      modifies this
      ensures Valid() && stream == old(stream)
      ensures Completed() == old(Completed())
    {
      hide Concat, AllFramed, Wire, MsgOk;
      EraseFront(vRecvMsg, taken, n);
      taken := taken + Wires(vRecvMsg)[..n];
      vRecvMsg := vRecvMsg[n..];
    }
  }

  lemma QueueTail(ms: seq<NetMessage>, n: nat)
    requires QueueOk(ms) && n <= Finished(ms)
    ensures QueueOk(ms[n..]) && Finished(ms[n..]) == Finished(ms) - n
    ensures Wires(ms[n..]) == Wires(ms)[n..]
  {
    hide Wire, MsgOk;
    var rest := ms[n..];
    assert forall i | 0 <= i < |rest| :: rest[i] == ms[n + i];
  }

  lemma {:induction false} RegroupFrames(taken: seq<Bytes>, fs: seq<Bytes>, n: nat, k: nat)
    requires n <= k <= |fs| && AllFramed(taken) && AllFramed(fs[..k])
    ensures AllFramed(taken + fs[..n])
    ensures Concat(taken + fs[..n]) + Concat(fs[n..]) == Concat(taken) + Concat(fs)
    ensures (taken + fs[..n]) + fs[n..][..k - n] == taken + fs[..k]
  {
    hide Concat, WellFramed;
    assert fs == fs[..n] + fs[n..];
    ConcatAppend(fs[..n], fs[n..]);
    ConcatAppend(taken, fs[..n]);
    assert forall i | 0 <= i < n :: fs[..n][i] == fs[..k][i];
    assert fs[..k] == fs[..n] + fs[n..][..k - n];
  }

  lemma {:induction false} EraseFront(ms: seq<NetMessage>, taken: seq<Bytes>, n: nat)
    requires QueueOk(ms) && AllFramed(taken) && n <= Finished(ms)
    ensures var fs, taken' := Wires(ms), taken + Wires(ms)[..n];
            && QueueOk(ms[n..]) && AllFramed(taken')
            && Concat(taken') + Concat(Wires(ms[n..])) == Concat(taken) + Concat(fs)
            && taken' + Wires(ms[n..])[..Finished(ms[n..])] == taken + fs[..Finished(ms)]
  {
    hide Concat, AllFramed, Wires;
    QueueShape(ms);
    QueueTail(ms, n);
    RegroupFrames(taken, Wires(ms), n, Finished(ms));
  }

  lemma LastWire(ms: seq<NetMessage>)
    requires ms != [] && forall i | 0 <= i < |ms| :: MsgOk(ms[i])
    ensures Concat(Wires(ms)) == Concat(Wires(ms[..|ms| - 1])) + Wire(ms[|ms| - 1])
  {
    var last := |ms| - 1;
    assert Wires(ms) == Wires(ms[..last]) + [Wire(ms[last])];
    ConcatSnoc(Wires(ms[..last]), Wire(ms[last]));
  }

  /** A header that announces too much spoils the stream. */
  lemma {:induction false} HeaderTooLarge(taken: seq<Bytes>, ms: seq<NetMessage>, w: Bytes, chunk: Bytes)
    requires AllFramed(taken) && forall i | 0 <= i < |ms| :: MsgOk(ms[i]) && ms[i].Complete()
    requires exists n | 0 < n <= |chunk| :: |w + chunk[..n]| == HEADER_SIZE && SizeField(w + chunk[..n]) > MAX_SIZE
    ensures Split((Concat(taken) + Concat(Wires(ms))) + (w + chunk)).TooLarge?
  {
    var n :| 0 < n <= |chunk| && |w + chunk[..n]| == HEADER_SIZE && SizeField(w + chunk[..n]) > MAX_SIZE;
    var fs := Wires(ms);
    forall i | 0 <= i < |fs|
      ensures WellFramed(fs[i])
    {
      WireFramed(ms[i]);
    }
    ConcatAppend(taken, fs);
    SplitFrames(taken + fs, w + chunk);
    assert (w + chunk)[MESSAGE_SIZE_OFFSET..CHECKSUM_OFFSET] == (w + chunk[..n])[MESSAGE_SIZE_OFFSET..CHECKSUM_OFFSET];
  }

  // ----- the sender

  /** What BeginMessage and the payload put into ssSend: start string, command, a size and a
      checksum still zero. */
  predicate Begun(ss: Bytes) {
    |ss| >= HEADER_SIZE
  }

  /** EndMessage fills in the size and the checksum. */
  function Sealed(ss: Bytes, checksum: Bytes): (f: Bytes)
    requires Begun(ss) && |checksum| == 4
    ensures |f| == |ss|
  {
    ss[..MESSAGE_SIZE_OFFSET] + Le32((|ss| - HEADER_SIZE) % TWO_32) + checksum + ss[HEADER_SIZE..]
  }

  lemma SealedFramed(ss: Bytes, checksum: Bytes)
    requires Begun(ss) && |checksum| == 4 && |ss| - HEADER_SIZE <= MAX_SIZE
    ensures WellFramed(Sealed(ss, checksum))
    ensures Sealed(ss, checksum)[HEADER_SIZE..] == ss[HEADER_SIZE..]
    ensures Sealed(ss, checksum)[CHECKSUM_OFFSET..HEADER_SIZE] == checksum
  {
    hide Le32, FromLe32;
    var f := Sealed(ss, checksum);
    var size := |ss| - HEADER_SIZE;
    assert size % TWO_32 == size;
    assert f[MESSAGE_SIZE_OFFSET..CHECKSUM_OFFSET] == Le32(size);
    Le32RoundTrip(size);
  }

  predicate WithinLimit(f: Bytes) {
    |f| <= HEADER_SIZE + MAX_SIZE
  }

  /** Every message within the size limit is announced correctly. */
  predicate AllSealed(fs: seq<Bytes>) {
    forall i | 0 <= i < |fs| :: WithinLimit(fs[i]) ==> WellFramed(fs[i])
  }

  class Sender {
    var ssSend: Bytes
    var vSendMsg: seq<Bytes>
    var nSendSize: int
    var nSendOffset: nat
    /** The messages pushed so far, and the bytes the socket has accepted so far. */
    ghost var pushed: seq<Bytes>
    ghost var wire: Bytes

    ghost predicate Valid()
      reads this
    {
      QueueAccounts(vSendMsg, nSendSize, nSendOffset, pushed, wire) && AllSealed(pushed)
    }

    constructor ()
      ensures Valid() && pushed == [] && wire == [] && ssSend == []
    {
      ssSend, vSendMsg, nSendSize, nSendOffset := [], [], 0, 0;
      pushed, wire := [], [];
    }

    /** BeginMessage; header is the serialised CMessageHeader with size and checksum zero. */
    method BeginMessage(header: Bytes)
      requires ssSend == [] && |header| == HEADER_SIZE
      modifies this`ssSend
      ensures ssSend == header
    {
      ssSend := header;
    }

    /** AbortMessage. */
    method AbortMessage()
      modifies this`ssSend
      ensures ssSend == []
    {
      ssSend := [];
    }

    /** EndMessage: checksum is the start of the payload's hash. */
    method EndMessage(checksum: Bytes)
      requires Valid() && (ssSend == [] || Begun(ssSend)) && |checksum| == 4
      modifies this
      ensures Valid() && ssSend == []
      ensures pushed == if old(ssSend) == [] then old(pushed) else old(pushed) + [Sealed(old(ssSend), checksum)]
      ensures old(wire) <= wire
    {
      hide Concat, WellFramed;
      if ssSend == [] {
        return;
      }
      var nSize := (|ssSend| - HEADER_SIZE) % TWO_32;
      ssSend := ssSend[..MESSAGE_SIZE_OFFSET] + Le32(nSize) + ssSend[CHECKSUM_OFFSET..];
      ssSend := ssSend[..CHECKSUM_OFFSET] + checksum + ssSend[HEADER_SIZE..];
      assert ssSend == Sealed(old(ssSend), checksum);
      if WithinLimit(ssSend) {
        SealedFramed(old(ssSend), checksum);
      }
      PushAccounts(vSendMsg, nSendSize, nSendOffset, pushed, wire, ssSend);
      vSendMsg := vSendMsg + [ssSend];
      nSendSize := nSendSize + |ssSend|;
      pushed := pushed + [ssSend];
      ssSend := [];
      if |vSendMsg| == 1 {
        SocketSendData();
      }
    }

    /** SocketSendData. How much the socket accepts each time is not determined. */
    method SocketSendData()
      requires Valid()
      modifies this`nSendSize, this`nSendOffset, this`vSendMsg, this`wire
      ensures Valid() && old(wire) <= wire
    {
      hide Concat;
      var it := 0;
      while it < |vSendMsg|
        invariant it <= |vSendMsg| && vSendMsg == old(vSendMsg) && old(wire) <= wire
        invariant QueueAccounts(vSendMsg[it..], nSendSize, nSendOffset, pushed, wire)
      {
        var data := vSendMsg[it];
        assert vSendMsg[it..][0] == data && vSendMsg[it..][1..] == vSendMsg[it + 1..];
        var nBytes: int := *;
        if nBytes > |data| - nSendOffset {
          nBytes := |data| - nSendOffset;
        }
        if nBytes > 0 {
          SendAccounts(vSendMsg[it..], nSendSize, nSendOffset, pushed, wire, nBytes);
          wire := wire + data[nSendOffset..nSendOffset + nBytes];
          nSendOffset := nSendOffset + nBytes;
          if nSendOffset == |data| {
            nSendOffset := 0;
            nSendSize := nSendSize - |data|;
            it := it + 1;
          } else {
            break;
          }
        } else {
          break;
        }
      }
      vSendMsg := vSendMsg[it..];
    }
  }

  /** nSendSize is the size of the queue, nSendOffset what has gone of its first message, and what
      was pushed is what the socket accepted followed by what is unsent. */
  predicate QueueAccounts(queue: seq<Bytes>, size: int, offset: nat, pushed: seq<Bytes>, wire: Bytes) {
    && (forall i | 0 <= i < |queue| :: queue[i] != [])
    && (if queue == [] then offset == 0 else offset < |queue[0]|)
    && size == |Concat(queue)|
    && offset <= |Concat(queue)|
    && Concat(pushed) == wire + Concat(queue)[offset..]
  }

  lemma PushAccounts(queue: seq<Bytes>, size: int, offset: nat, pushed: seq<Bytes>, wire: Bytes, f: Bytes)
    requires QueueAccounts(queue, size, offset, pushed, wire) && f != []
    ensures QueueAccounts(queue + [f], size + |f|, offset, pushed + [f], wire)
  {
    hide Concat;
    ConcatSnoc(queue, f);
    ConcatSnoc(pushed, f);
    assert (Concat(queue) + f)[offset..] == Concat(queue)[offset..] + f;
  }

  lemma SendAccounts(queue: seq<Bytes>, size: int, offset: nat, pushed: seq<Bytes>, wire: Bytes, n: nat)
    requires QueueAccounts(queue, size, offset, pushed, wire) && queue != [] && 0 < n <= |queue[0]| - offset
    ensures var wire' := wire + queue[0][offset..offset + n];
            if offset + n == |queue[0]| then QueueAccounts(queue[1..], size - |queue[0]|, 0, pushed, wire')
            else QueueAccounts(queue, size, offset + n, pushed, wire')
  {
    var data, more := queue[0], Concat(queue[1..]);
    assert Concat(queue) == data + more;
    hide Concat;
    var sent := data[offset..offset + n];
    assert (data + more)[offset..] == sent + (data + more)[offset + n..];
    assert wire + (sent + (data + more)[offset + n..]) == (wire + sent) + (data + more)[offset + n..];
    if offset + n == |data| {
      assert (data + more)[|data|..] == more == more[0..];
    }
  }

  /** The unsent bytes are what the two counters say. */
  lemma {:induction false} UnsentBytes(queue: seq<Bytes>, size: int, offset: nat, pushed: seq<Bytes>, wire: Bytes)
    requires QueueAccounts(queue, size, offset, pushed, wire)
    ensures |Concat(pushed)| - |wire| == size - offset
    ensures queue == [] ==> size == 0 && offset == 0 && wire == Concat(pushed)
    ensures wire <= Concat(pushed)
  {
    assert queue == [] ==> Concat(queue) == [];
  }

  /** End to end: whatever the partial writes and the chunks, a receiver that has got any part of
      what the socket accepted has completed exactly the first few of the pushed messages, byte for
      byte, and never refuses. */
  lemma Delivery(s: Sender, r: Receiver) returns (k: nat)
    requires s.Valid() && r.Valid() && r.stream <= s.wire
    requires forall i | 0 <= i < |s.pushed| :: WithinLimit(s.pushed[i])
    ensures k <= |s.pushed| && r.Completed() == s.pushed[..k]
    ensures k < |s.pushed| ==> Rest(r.vRecvMsg) < s.pushed[k]
    ensures r.stream == Concat(s.pushed) ==> k == |s.pushed|
  {
    hide Concat, WellFramed;
    UnsentBytes(s.vSendMsg, s.nSendSize, s.nSendOffset, s.pushed, s.wire);
    k := SplitPrefix(s.pushed, r.stream);
    r.StateIsSplit();
    if k < |s.pushed| && r.stream == Concat(s.pushed) {
      TooShort(s.pushed, k, Rest(r.vRecvMsg));
    }
  }

  lemma {:induction false} TooShort(fs: seq<Bytes>, k: nat, rest: Bytes)
    requires k < |fs| && rest < fs[k]
    ensures Concat(fs[..k]) + rest != Concat(fs)
  {
    assert fs == fs[..k] + fs[k..];
    ConcatAppend(fs[..k], fs[k..]);
    assert |Concat(fs[k..])| >= |fs[k]|;
  }

  /** Receiving the next piece of such a stream succeeds. */
  lemma {:induction false} NeverRefused(pushed: seq<Bytes>, stream: Bytes)
    requires AllFramed(pushed) && stream <= Concat(pushed)
    ensures !Split(stream).TooLarge?
  {
    var k := SplitPrefix(pushed, stream);
  }
}
