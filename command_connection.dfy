/**
 * The command protocol of `al_CommandConnection.cpp`: the handshake bytes both
 * sides exchange, the classification of the leading tag byte in the reader
 * loops, the reader loops' receive buffer with its remaining-bytes compaction,
 * the server's connection registry, and recipient selection in `sendMessage`.
 * Sockets, threads and clocks are replaced by parameters.
 */
module CommandConnection {
  import opened Wire
  import Options

  /**
   * The five control tags. Their numeric values live in a header that is not part
   * of this model, so they are carried as a value; `Distinct` is all the protocol
   * relies on.
   */
  datatype Tags = Tags(handshake: Byte, handshakeAck: Byte, ping: Byte, pong: Byte, goodbye: Byte)
  {
    predicate Distinct()
    {
      && handshake != handshakeAck && handshake != ping && handshake != pong && handshake != goodbye
      && handshakeAck != ping && handshakeAck != pong && handshakeAck != goodbye
      && ping != pong && ping != goodbye
      && pong != goodbye
    }
  }

  /** `BarrierState`: the role a connection object currently plays. */
  datatype BarrierState = NoRole | ServerRole | ClientRole

  /** A socket as far as recipient selection can tell them apart. */
  datatype Peer = Peer(address: string, port: U16)

  /** `al::ValueSource`: where a message came from. */
  datatype ValueSource = ValueSource(ipAddr: string, port: U16)

  predicate SameEndpoint(p: Peer, s: ValueSource)
  {
    p.address == s.ipAddr && p.port == s.port
  }

  // ---------------------------------------------------------------------------
  // Handshake framing

  /** The bytes `CommandClient::start` sends after connecting. */
  function ClientHandshake(t: Tags, port: U16): (m: seq<Byte>)
    ensures |m| == 8 && m[0] == t.handshake
    ensures DecodeU16(m, 1) == port
    ensures forall i :: 3 <= i < 8 ==> m[i] == 0
  {
    var m := [t.handshake] + EncodeU16(port) + [0, 0, 0, 0, 0];
    assert m[1..3] == EncodeU16(port);
    m
  }

  /** What the accept loop makes of the first receive on a new socket. */
  datatype FirstMessage = NothingReceived | Unrecognized | Accepted(version: U16, revision: U16)

  /**
   * The accept loop's rule for the first receive (`m` holds the bytes received,
   * at most the 1024 the call asks for): the leading byte must be HANDSHAKE, and
   * version and revision are read as u16 at offsets 1 and 5 only when at least
   * 9 bytes arrived.
   */
  function ServerParseHandshake(t: Tags, m: seq<Byte>): (r: FirstMessage)
    requires |m| <= 1024
    ensures r.NothingReceived? <==> |m| == 0
    ensures r.Accepted? <==> |m| > 0 && m[0] == t.handshake
    ensures r.Accepted? && |m| >= 9 ==> r.version == LittleEndian(m[1..3]) && r.revision == LittleEndian(m[5..7])
    ensures r.Accepted? && |m| < 9 ==> r.version == 0 && r.revision == 0
  {
    if |m| == 0 then NothingReceived
    else if m[0] != t.handshake then Unrecognized
    else if |m| >= 9 then Accepted(DecodeU16(m, 1), DecodeU16(m, 5))
    else Accepted(0, 0)
  }

  /**
   * The acknowledgement the server sends: the buffer is filled with the tag, a
   * zero and the server's version and revision, but only its first 2 bytes are
   * sent.
   */
  function ServerAck(t: Tags, version: U16, revision: U16): (m: seq<Byte>)
  {
    var filled := [t.handshakeAck, 0] + EncodeU16(version) + EncodeU16(revision);
    filled[..2]
  }

  /** The client's test on its reply (at most the 8 bytes it asks for). */
  predicate ClientAcceptsAck(t: Tags, reply: seq<Byte>)
    requires |reply| <= 8
  {
    |reply| == 2 && reply[0] == t.handshakeAck
  }

  /** The ack never carries the server's version: it is `[HANDSHAKE_ACK, 0]` whatever the version. */
  lemma ServerAckShape(t: Tags, version: U16, revision: U16)
    ensures ServerAck(t, version, revision) == [t.handshakeAck, 0]
  {
  }

  /**
   * The two sides agree: the server accepts the client's handshake, but since it
   * is 8 bytes long (fewer than 9) the recorded version and revision are 0 and
   * the client's port is not read; and the client accepts the server's ack.
   */
  lemma HandshakeAgreement(t: Tags, port: U16, version: U16, revision: U16)
    ensures ServerParseHandshake(t, ClientHandshake(t, port)) == Accepted(0, 0)
    ensures ClientAcceptsAck(t, ServerAck(t, version, revision))
  {
    ServerAckShape(t, version, revision);
  }

  /** A reply of any length other than 2 fails the client's handshake, whatever it holds. */
  lemma ClientRejectsOtherLengths(t: Tags, reply: seq<Byte>)
    requires |reply| <= 8 && |reply| != 2
    ensures !ClientAcceptsAck(t, reply)
  {
  }

  // ---------------------------------------------------------------------------
  // Tag classification in the reader loops

  /** What a reader loop does with the byte at the front of its buffer. */
  datatype Action = LogPong | GoodbyeNotImplemented | UnexpectedHandshake | AnswerPing | Deliver

  /** The server reader: PONG, GOODBYE and HANDSHAKE are control, everything else goes to the handler. */
  function ServerClassify(t: Tags, tag: Byte): (a: Action)
    ensures a.Deliver? <==> tag != t.pong && tag != t.goodbye && tag != t.handshake
    ensures a.LogPong? <==> tag == t.pong
    ensures a.GoodbyeNotImplemented? <==> tag != t.pong && tag == t.goodbye
    ensures !a.AnswerPing?
  {
    if tag == t.pong then LogPong
    else if tag == t.goodbye then GoodbyeNotImplemented
    else if tag == t.handshake then UnexpectedHandshake
    else Deliver
  }

  /** The client reader: PING is answered, everything else goes to the handler. */
  function ClientClassify(t: Tags, tag: Byte): (a: Action)
    ensures a.AnswerPing? <==> tag == t.ping
    ensures a.Deliver? <==> tag != t.ping
  {
    if tag == t.ping then AnswerPing else Deliver
  }

  /**
   * The two readers are not symmetric: the server hands PING and HANDSHAKE_ACK to
   * the application handler, and the client hands it PONG, GOODBYE, HANDSHAKE and
   * HANDSHAKE_ACK.
   */
  lemma ClassificationAsymmetry(t: Tags)
    requires t.Distinct()
    ensures ServerClassify(t, t.ping) == Deliver && ServerClassify(t, t.handshakeAck) == Deliver
    ensures ClientClassify(t, t.pong) == Deliver && ClientClassify(t, t.goodbye) == Deliver
    ensures ClientClassify(t, t.handshake) == Deliver && ClientClassify(t, t.handshakeAck) == Deliver
  {
  }

  /** The reply `clientHandlePing` sends: a 2-byte buffer led by PONG. */
  function PongReply(t: Tags): (m: seq<Byte>)
    ensures |m| == 2 && m[0] == t.pong && ServerClassify(t, m[0]) == LogPong
  {
    [t.pong, 0]
  }

  // ---------------------------------------------------------------------------
  // The reader loops' receive buffer

  const BufferCapacity: nat := 2048
  const RecvChunk: nat := 1024

  /** `Message`: a view of `length` bytes with a read cursor `consumed <= length`. */
  datatype Message = Message(length: nat, consumed: nat)
  {
    predicate Valid() { consumed <= length }

    function RemainingBytes(): (n: nat)
      requires Valid()
      ensures consumed + n == length
    {
      length - consumed
    }
  }

  /** A reader's `commandMessage` buffer and its `bufferSize` offset. */
  datatype Reader = Reader(buf: seq<Byte>, size: nat)

  /** The buffer has room for one more full receive at the current offset. */
  predicate Fits(r: Reader)
  {
    |r.buf| == BufferCapacity && r.size + RecvChunk <= BufferCapacity
  }

  /** `recv(buf + at, ...)`: the received bytes overwrite the buffer from offset `at`. */
  function WriteAt(buf: seq<Byte>, at: nat, data: seq<Byte>): (w: seq<Byte>)
    requires at + |data| <= |buf|
    ensures |w| == |buf| && w[at..at + |data|] == data
    ensures w[..at] == buf[..at] && w[at + |data|..] == buf[at + |data|..]
  {
    buf[..at] + data + buf[at + |data|..]
  }

  /** `memcpy(buf, buf + from, count)`: the `count` bytes at `from` move to the front. */
  function MoveToFront(buf: seq<Byte>, from: nat, count: nat): (w: seq<Byte>)
    requires from + count <= |buf|
    ensures |w| == |buf| && w[..count] == buf[from..from + count] && w[count..] == buf[count..]
  {
    buf[from..from + count] + buf[count..]
  }

  /** The outcome of one successful receive. */
  datatype Step = Step(next: Reader, action: Action, delivered: Options.Option<seq<Byte>>)

  /**
   * One iteration of the server's reader loop for a receive of `data` (1..1024
   * bytes), where the handler, if called, reports `handled` and leaves the
   * message cursor at `consumed`. As written: the bytes are received at offset
   * `bufferSize`, the tag is the buffer's first byte, the Message spans the first
   * `|data|` bytes of the buffer, and `bufferSize` is only ever set to the
   * message's remaining bytes.
   */
  function ServerStep(t: Tags, r: Reader, data: seq<Byte>, handled: bool, consumed: nat): (s: Step)
    requires Fits(r) && 0 < |data| <= RecvChunk && consumed <= |data|
    ensures Fits(s.next)
    ensures var w := WriteAt(r.buf, r.size, data);
            && s.action == ServerClassify(t, w[0])
            && s.delivered == (if s.action.Deliver? then Options.Some(w[..|data|]) else Options.None)
  {
    var w := WriteAt(r.buf, r.size, data);
    var a := ServerClassify(t, w[0]);
    if !a.Deliver? then Step(Reader(w, r.size), a, Options.None)
    else
      var msg := Message(|data|, consumed);
      if !handled then Step(Reader(w, r.size), a, Options.Some(w[..msg.length]))
      else if msg.RemainingBytes() > 0 then
        Step(Reader(MoveToFront(w, msg.consumed, msg.RemainingBytes()), msg.RemainingBytes()), a, Options.Some(w[..msg.length]))
      else Step(Reader(w, 0), a, Options.Some(w[..msg.length]))
  }

  /**
   * Compaction: after a handled message the unconsumed tail of the message sits
   * at the front of the buffer and `bufferSize` is its length; a control tag or
   * an unhandled message leaves `bufferSize` as it was.
   */
  lemma ServerStepCompaction(t: Tags, r: Reader, data: seq<Byte>, handled: bool, consumed: nat)
    requires Fits(r) && 0 < |data| <= RecvChunk && consumed <= |data|
    ensures var s := ServerStep(t, r, data, handled, consumed);
            var w := WriteAt(r.buf, r.size, data);
            && (s.action.Deliver? && handled ==>
                  s.next.size == |data| - consumed && s.next.buf[..s.next.size] == w[consumed..|data|])
            && (!(s.action.Deliver? && handled) ==> s.next == Reader(w, r.size))
  {
  }

  /**
   * What the handler is shown. When `bufferSize` bytes were left over, it sees
   * them followed by only the first `|data| - bufferSize` received bytes: the
   * Message spans `|data|` bytes from the front, not the accumulated size.
   */
  lemma ServerStepWindow(t: Tags, r: Reader, data: seq<Byte>, handled: bool, consumed: nat)
    requires Fits(r) && 0 < |data| <= RecvChunk && consumed <= |data|
    requires r.size <= |data|
    ensures var s := ServerStep(t, r, data, handled, consumed);
            s.action.Deliver? ==> s.delivered == Options.Some(r.buf[..r.size] + data[..|data| - r.size])
  {
    var w := WriteAt(r.buf, r.size, data);
    assert w[..|data|] == w[..r.size] + w[r.size..|data|];
    assert w[r.size..|data|] == data[..|data| - r.size];
  }

  /**
   * One iteration of the client's reader loop as written: `bufferSize` grows by
   * every receive and is only reset after a handled message, and the tag is the
   * buffer's first byte. `None` means the receive would write past the 2048-byte
   * buffer (the model stops where the program would overrun it).
   */
  function ClientStep(t: Tags, r: Reader, data: seq<Byte>, handled: bool, consumed: nat): (s: Options.Option<Step>)
    requires |r.buf| == BufferCapacity && 0 < |data| <= RecvChunk && consumed <= |data|
    ensures s.None? <==> r.size + |data| > BufferCapacity
    ensures r.size + |data| <= BufferCapacity ==>
              var w := WriteAt(r.buf, r.size, data);
              && s.Some?
              && s.value.action == ClientClassify(t, w[0])
              && s.value.delivered == (if s.value.action.Deliver? then Options.Some(w[..|data|]) else Options.None)
              && (!(s.value.action.Deliver? && handled) ==> s.value.next == Reader(w, r.size + |data|))
  {
    if r.size + |data| > BufferCapacity then Options.None
    else
      var w := WriteAt(r.buf, r.size, data);
      var grown := r.size + |data|;
      var a := ClientClassify(t, w[0]);
      if a.AnswerPing? then Options.Some(Step(Reader(w, grown), a, Options.None))
      else
        var msg := Message(|data|, consumed);
        if !handled then Options.Some(Step(Reader(w, grown), a, Options.Some(w[..msg.length])))
        else if msg.RemainingBytes() > 0 then
          Options.Some(Step(Reader(MoveToFront(w, msg.consumed, msg.RemainingBytes()), msg.RemainingBytes()), a, Options.Some(w[..msg.length])))
        else Options.Some(Step(Reader(w, 0), a, Options.Some(w[..msg.length])))
  }

  /**
   * Compaction on the client: after a handled message only its unconsumed tail
   * stays, at the front of the buffer, and `bufferSize` is its length; this is
   * the one place where the client's `bufferSize` shrinks.
   */
  lemma ClientStepCompaction(t: Tags, r: Reader, data: seq<Byte>, handled: bool, consumed: nat)
    requires |r.buf| == BufferCapacity && 0 < |data| <= RecvChunk && consumed <= |data|
    requires r.size + |data| <= BufferCapacity
    ensures var s := ClientStep(t, r, data, handled, consumed);
            var w := WriteAt(r.buf, r.size, data);
            s.Some? && s.value.action.Deliver? && handled ==>
              s.value.next.size == |data| - consumed && s.value.next.buf[..s.value.next.size] == w[consumed..|data|]
  {
  }

  function EmptyReader(): (r: Reader)
    ensures Fits(r) && r.size == 0
  {
    Reader(seq(BufferCapacity, _ => 0), 0)
  }

  /**
   * As written, one PING makes the client deaf: the PING byte stays at the front
   * of the buffer and `bufferSize` keeps the ping's 2 bytes, so the next receive
   * (here an application message led by any non-PING tag) is written behind it
   * and is answered as another ping instead of reaching the handler.
   */
  lemma ClientPingSticks(t: Tags, app: Byte)
    requires app != t.ping
    ensures var s1 := ClientStep(t, EmptyReader(), [t.ping, 0], true, 0);
            && s1.Some? && s1.value.action == AnswerPing && s1.value.next.size == 2
            && var s2 := ClientStep(t, s1.value.next, [app, 0x41, 0x42], true, 3);
            && s2.Some? && s2.value.action == AnswerPing && s2.value.delivered.None?
            && s2.value.next.size == 5
  {
    var s1 := ClientStep(t, EmptyReader(), [t.ping, 0], true, 0);
    assert s1.value.next.buf[0] == t.ping;
  }

  /**
   * As written, the client's write offset outgrows the buffer: after a PING and
   * one full 1024-byte receive, a second full receive would be written past the
   * end of the 2048-byte buffer.
   */
  lemma ClientBufferOverrun(t: Tags, chunk: seq<Byte>)
    requires |chunk| == RecvChunk
    ensures var s1 := ClientStep(t, EmptyReader(), [t.ping, 0], true, 0);
            && s1.Some?
            && var s2 := ClientStep(t, s1.value.next, chunk, true, 0);
            && s2.Some? && s2.value.next.size == 2 + RecvChunk
            && ClientStep(t, s2.value.next, chunk, true, 0).None?
  {
    var s1 := ClientStep(t, EmptyReader(), [t.ping, 0], true, 0);
    assert s1.value.next.buf[0] == t.ping;
    var s2 := ClientStep(t, s1.value.next, chunk, true, 0);
    assert s2.value.next.buf[0] == t.ping;
  }

  /**
   * The client loop with the evidently intended offset discipline (the server's):
   * `bufferSize` is no longer increased by each receive, so it only ever holds the
   * remaining bytes of a handled message.
   */
  function ClientStepCorrected(t: Tags, r: Reader, data: seq<Byte>, handled: bool, consumed: nat): (s: Step)
    requires Fits(r) && 0 < |data| <= RecvChunk && consumed <= |data|
    ensures Fits(s.next)
    ensures r.size == 0 ==> s.action == ClientClassify(t, data[0])
  {
    var w := WriteAt(r.buf, r.size, data);
    var a := ClientClassify(t, w[0]);
    if a.AnswerPing? then Step(Reader(w, r.size), a, Options.None)
    else
      var msg := Message(|data|, consumed);
      if !handled then Step(Reader(w, r.size), a, Options.Some(w[..msg.length]))
      else if msg.RemainingBytes() > 0 then
        Step(Reader(MoveToFront(w, msg.consumed, msg.RemainingBytes()), msg.RemainingBytes()), a, Options.Some(w[..msg.length]))
      else Step(Reader(w, 0), a, Options.Some(w[..msg.length]))
  }

  /** With the corrected discipline a PING no longer captures the next message. */
  lemma ClientCorrectedPingReleases(t: Tags, app: Byte)
    requires app != t.ping
    ensures var s1 := ClientStepCorrected(t, EmptyReader(), [t.ping, 0], true, 0);
            && s1.action == AnswerPing && s1.next.size == 0
            && ClientStepCorrected(t, s1.next, [app, 0x41, 0x42], true, 3).action == Deliver
  {
  }

  /**
   * `memcpy(commandMessage, message.data(), remainingBytes())` on the buffer in
   * place, modelled as a front-to-back copy. When the two ranges overlap
   * (`from < count`) `memcpy` is undefined in C; this model gives it the
   * meaning of `memmove`.
   */
  method CompactFront(a: array<Byte>, from: nat, count: nat)
    requires from + count <= a.Length
    modifies a
    ensures a[..] == MoveToFront(old(a[..]), from, count)
  {
    var i := 0;
    while i < count
      invariant 0 <= i <= count
      invariant forall k :: 0 <= k < i ==> a[k] == old(a[from + k])
      invariant forall k :: i <= k < a.Length ==> a[k] == old(a[k])
    {
      a[i] := a[from + i];
      i := i + 1;
    }
    assert a[..count] == old(a[..])[from..from + count];
    assert a[count..] == old(a[..])[count..];
  }

  /** The receive step `recv(commandMessage + bufferSize, ...)` on the buffer in place. */
  method ReceiveInto(a: array<Byte>, at: nat, data: seq<Byte>)
    requires at + |data| <= a.Length
    modifies a
    ensures a[..] == WriteAt(old(a[..]), at, data)
  {
    var i := 0;
    while i < |data|
      invariant 0 <= i <= |data|
      invariant forall k :: 0 <= k < a.Length ==> a[k] == (if at <= k < at + i then data[k - at] else old(a[k]))
    {
      a[at + i] := data[i];
      i := i + 1;
    }
    assert a[..] == WriteAt(old(a[..]), at, data);
  }

  /** The server-side reader thread's buffer state for one peer. */
  class ServerReader {
    const tags: Tags
    const buffer: array<Byte>
    var bufferSize: nat

    ghost predicate Valid()
      reads this
    {
      buffer.Length == BufferCapacity && bufferSize + RecvChunk <= BufferCapacity
    }

    ghost function State(): Reader
      reads this, buffer
    {
      Reader(buffer[..], bufferSize)
    }

    constructor(t: Tags)
      ensures Valid() && fresh(buffer) && tags == t && bufferSize == 0
    {
      tags := t;
      buffer := new Byte[BufferCapacity](_ => 0);
      bufferSize := 0;
    }

    /** One loop iteration for a receive of 1..1024 bytes. */
    method Receive(data: seq<Byte>, handled: bool, consumed: nat) returns (action: Action, delivered: Options.Option<seq<Byte>>)
      requires Valid() && 0 < |data| <= RecvChunk && consumed <= |data|
      modifies this, buffer
      ensures Valid()
      ensures ServerStep(tags, old(State()), data, handled, consumed) == Step(State(), action, delivered)
    {
      ReceiveInto(buffer, bufferSize, data);
      action := ServerClassify(tags, buffer[0]);
      delivered := Options.None;
      if action.Deliver? {
        var message := Message(|data|, consumed);
        delivered := Options.Some(buffer[..message.length]);
        if handled {
          if message.RemainingBytes() > 0 {
            CompactFront(buffer, message.consumed, message.RemainingBytes());
            bufferSize := message.RemainingBytes();
          } else {
            bufferSize := 0;
          }
        }
      }
    }
  }

  /** The client's reader buffer, following the loop as written. */
  class ClientReader {
    const tags: Tags
    const buffer: array<Byte>
    var bufferSize: nat

    ghost predicate Valid()
      reads this
    {
      buffer.Length == BufferCapacity
    }

    ghost function State(): Reader
      reads this, buffer
    {
      Reader(buffer[..], bufferSize)
    }

    constructor(t: Tags)
      ensures Valid() && fresh(buffer) && tags == t && bufferSize == 0
    {
      tags := t;
      buffer := new Byte[BufferCapacity](_ => 0);
      bufferSize := 0;
    }

    /**
     * One loop iteration for a receive of 1..1024 bytes; `ok` is false, and
     * nothing changes, when the receive would not fit behind `bufferSize`.
     * `reply` is what is sent back (the PONG buffer, or nothing).
     */
    method Receive(data: seq<Byte>, handled: bool, consumed: nat)
      returns (ok: bool, action: Action, delivered: Options.Option<seq<Byte>>, reply: seq<Byte>)
      requires Valid() && 0 < |data| <= RecvChunk && consumed <= |data|
      modifies this, buffer
      ensures Valid()
      ensures ok <==> ClientStep(tags, old(State()), data, handled, consumed).Some?
      ensures ok ==> ClientStep(tags, old(State()), data, handled, consumed) == Options.Some(Step(State(), action, delivered))
      ensures !ok ==> State() == old(State())
      ensures reply == (if ok && action.AnswerPing? then PongReply(tags) else [])
    {
      action, delivered, reply := Deliver, Options.None, [];
      if bufferSize + |data| > BufferCapacity {
        ok := false;
        return;
      }
      ok := true;
      ReceiveInto(buffer, bufferSize, data);
      bufferSize := bufferSize + |data|;
      action := ClientClassify(tags, buffer[0]);
      if action.AnswerPing? {
        reply := PongReply(tags);
      } else {
        var message := Message(|data|, consumed);
        delivered := Options.Some(buffer[..message.length]);
        if handled {
          if message.RemainingBytes() > 0 {
            CompactFront(buffer, message.consumed, message.RemainingBytes());
            bufferSize := message.RemainingBytes();
          } else {
            bufferSize := 0;
          }
        }
      }
    }
  }

  // ---------------------------------------------------------------------------
  // Recipient selection

  /** The peers a broadcast reaches, in registry order: all but those matching `src`. */
  function Recipients(peers: seq<Peer>, src: Options.Option<ValueSource>): (r: seq<Peer>)
    ensures |r| <= |peers|
  {
    if |peers| == 0 then []
    else if src.Some? && SameEndpoint(peers[0], src.value) then Recipients(peers[1..], src)
    else [peers[0]] + Recipients(peers[1..], src)
  }

  /** A peer is sent to exactly when it is registered and does not match `src` on both address and port. */
  lemma {:induction false} RecipientsMembers(peers: seq<Peer>, src: Options.Option<ValueSource>, p: Peer)
    ensures p in Recipients(peers, src) <==> p in peers && !(src.Some? && SameEndpoint(p, src.value))
  {
    if |peers| > 0 {
      RecipientsMembers(peers[1..], src, p);
      assert peers == [peers[0]] + peers[1..];
    }
  }

  /** Without `src` every registered peer is sent to, once each, in registry order. */
  lemma {:induction false} RecipientsWithoutSource(peers: seq<Peer>)
    ensures Recipients(peers, Options.None) == peers
  {
    if |peers| > 0 {
      RecipientsWithoutSource(peers[1..]);
      assert peers == [peers[0]] + peers[1..];
    }
  }

  /** Every send in the list moved the full length. */
  predicate AllSent(sent: seq<Peer>, length: nat, transport: (Peer, nat) -> int)
  {
    forall i :: 0 <= i < |sent| ==> transport(sent[i], length) == length
  }

  lemma RecipientsStep(peers: seq<Peer>, i: nat, src: Options.Option<ValueSource>)
    requires i < |peers|
    ensures Recipients(peers[i..], src) ==
            (if src.Some? && SameEndpoint(peers[i], src.value) then [] else [peers[i]]) + Recipients(peers[i + 1..], src)
  {
    assert peers[i..][1..] == peers[i + 1..];
  }

  /** One turn of the broadcast loop keeps the sends made plus those still to come equal to `Recipients`. */
  lemma BroadcastStep(peers: seq<Peer>, i: nat, src: Options.Option<ValueSource>, sentTo: seq<Peer>)
    requires i < |peers|
    requires sentTo + Recipients(peers[i..], src) == Recipients(peers, src)
    ensures var skip := src.Some? && SameEndpoint(peers[i], src.value);
            (if skip then sentTo else sentTo + [peers[i]]) + Recipients(peers[i + 1..], src) == Recipients(peers, src)
  {
    RecipientsStep(peers, i, src);
    if !(src.Some? && SameEndpoint(peers[i], src.value)) {
      assert (sentTo + [peers[i]]) + Recipients(peers[i + 1..], src)
          == sentTo + ([peers[i]] + Recipients(peers[i + 1..], src));
    }
  }

  lemma AllSentAppend(sent: seq<Peer>, p: Peer, length: nat, transport: (Peer, nat) -> int)
    ensures AllSent(sent + [p], length, transport) <==> AllSent(sent, length, transport) && transport(p, length) == length
  {
    var s := sent + [p];
    assert forall i :: 0 <= i < |sent| ==> s[i] == sent[i];
    assert s[|sent|] == p;
  }

  /** The broadcast loop of `CommandServer::sendMessage`: every registered peer but those matching `src`. */
  method Broadcast(connections: seq<Peer>, length: nat, src: Options.Option<ValueSource>,
                   transport: (Peer, nat) -> int)
    returns (ok: bool, sentTo: seq<Peer>)
    ensures sentTo == Recipients(connections, src)
    ensures ok == AllSent(sentTo, length, transport)
  {
    ok, sentTo := true, [];
    var i := 0;
    assert connections[i..] == connections;
    while i < |connections|
      invariant 0 <= i <= |connections|
      invariant sentTo + Recipients(connections[i..], src) == Recipients(connections, src)
      invariant ok == AllSent(sentTo, length, transport)
    {
      var connection := connections[i];
      BroadcastStep(connections, i, src, sentTo);
      if !(src.Some? && SameEndpoint(connection, src.value)) {
        AllSentAppend(sentTo, connection, length, transport);
        ok := ok && transport(connection, length) == length;
        sentTo := sentTo + [connection];
      }
      i := i + 1;
    }
    assert connections[|connections|..] == [];
  }

  /**
   * `CommandServer::sendMessage` over a registry snapshot. `transport(p, n)` is
   * what `p->send(message, n)` returns; `sentTo` lists the sends made, in order.
   */
  method ServerSendMessage(connections: seq<Peer>, length: nat, dst: Options.Option<Peer>,
                           src: Options.Option<ValueSource>, transport: (Peer, nat) -> int)
    returns (ok: bool, sentTo: seq<Peer>)
    ensures length == 0 ==> !ok && sentTo == []
    ensures length > 0 && dst.Some? ==> sentTo == [dst.value] && ok == (transport(dst.value, length) == length)
    ensures length > 0 && dst.None? ==> sentTo == Recipients(connections, src) && ok == AllSent(sentTo, length, transport)
  {
    if length == 0 {
      return false, [];
    }
    if dst.None? {
      ok, sentTo := Broadcast(connections, length, src, transport);
    } else {
      ok := transport(dst.value, length) == length;
      sentTo := [dst.value];
    }
  }

  /**
   * `CommandClient::sendMessage`: the client has one socket, `self`. With no
   * `dst` it sends to `self` unless `src` matches it; with a `dst` it sends to
   * `dst` unless `dst` has `self`'s address and port, and then reports success.
   */
  method ClientSendMessage(self: Peer, length: nat, dst: Options.Option<Peer>,
                           src: Options.Option<ValueSource>, transport: (Peer, nat) -> int)
    returns (ok: bool, sentTo: seq<Peer>)
    ensures length == 0 ==> !ok && sentTo == []
    ensures length > 0 && dst.None? ==> sentTo == Recipients([self], src)
    ensures length > 0 && dst.Some? ==> sentTo == (if dst.value == self then [] else [dst.value])
    ensures length > 0 ==> ok == AllSent(sentTo, length, transport)
  {
    if length == 0 {
      return false, [];
    }
    ok, sentTo := true, [];
    AllSentAppend([], self, length, transport);
    if dst.Some? {
      AllSentAppend([], dst.value, length, transport);
    }
    if dst.None? {
      if src.None? || self.address != src.value.ipAddr || self.port != src.value.port {
        ok := transport(self, length) == length;
        sentTo := [self];
      }
    } else if self.address != dst.value.address || self.port != dst.value.port {
      ok := transport(dst.value, length) == length;
      sentTo := [dst.value];
    }
  }

  // ---------------------------------------------------------------------------
  // Connection objects

  /** Poll `k` is the first whose registry size reaches `count`. */
  predicate FirstReaching(polls: seq<nat>, count: nat, k: int)
  {
    0 <= k < |polls| && polls[k] >= count && forall j :: 0 <= j < k ==> polls[j] < count
  }

  /** What `waitForConnections` returns after observing the registry size `polls[i]` at each poll. */
  function PollResult(initial: nat, polls: seq<nat>, count: nat): (r: nat)
    ensures (exists i :: 0 <= i < |polls| && polls[i] >= count) ==> r >= count
    ensures (forall i :: 0 <= i < |polls| ==> polls[i] < count) ==> r == (if |polls| == 0 then initial else polls[|polls| - 1])
    decreases |polls|
  {
    if |polls| == 0 then initial
    else if polls[0] >= count then polls[0]
    else PollResult(polls[0], polls[1..], count)
  }

  /** The loop stops at the first poll that reaches `count` and returns what that poll saw. */
  lemma {:induction false} PollResultFirst(initial: nat, polls: seq<nat>, count: nat, k: int)
    requires FirstReaching(polls, count, k)
    ensures PollResult(initial, polls, count) == polls[k]
    decreases |polls|
  {
    if k > 0 {
      assert polls[0] < count;
      assert FirstReaching(polls[1..], count, k - 1) by {
        forall j | 0 <= j < k - 1
          ensures polls[1..][j] < count
        {
          assert polls[1..][j] == polls[j + 1];
        }
      }
      PollResultFirst(polls[0], polls[1..], count, k - 1);
    }
  }

  class CommandServer {
    const tags: Tags
    const version: U16
    const revision: U16
    var running: bool
    var state: BarrierState
    var connections: seq<Peer>
    var versions: seq<(U16, U16)>

    /** The socket list and the version list grow together. */
    ghost predicate Valid()
      reads this
    {
      |connections| == |versions|
    }

    constructor(t: Tags, v: U16, rev: U16)
      ensures Valid() && tags == t && version == v && revision == rev
      ensures !running && state == NoRole && connections == [] && versions == []
    {
      tags, version, revision := t, v, rev;
      running, state := false, NoRole;
      connections, versions := [], [];
    }

    /** `start`: `listening` says whether open, bind and listen all succeeded. */
    method Start(listening: bool) returns (ok: bool)
      modifies this
      ensures ok == listening
      ensures ok ==> running && state == ServerRole
      ensures !ok ==> running == old(running) && state == old(state)
      ensures connections == old(connections) && versions == old(versions)
    {
      if !listening {
        return false;
      }
      running := true;
      state := ServerRole;
      ok := true;
    }

    /**
     * One pass of the accept loop for a socket whose first receive is `first`:
     * a handshake is acknowledged and registered, anything else is dropped.
     */
    method Accept(socket: Peer, first: seq<Byte>) returns (reply: Options.Option<seq<Byte>>)
      requires Valid() && |first| <= 1024
      modifies this
      ensures Valid() && running == old(running) && state == old(state)
      ensures ServerParseHandshake(tags, first).Accepted? ==>
                && reply == Options.Some(ServerAck(tags, version, revision))
                && connections == old(connections) + [socket]
                && versions == old(versions) + [(ServerParseHandshake(tags, first).version, ServerParseHandshake(tags, first).revision)]
      ensures !ServerParseHandshake(tags, first).Accepted? ==>
                reply == Options.None && connections == old(connections) && versions == old(versions)
    {
      match ServerParseHandshake(tags, first)
      case Accepted(v, r) =>
        reply := Options.Some(ServerAck(tags, version, revision));
        connections := connections + [socket];
        versions := versions + [(v, r)];
      case _ =>
        reply := Options.None;
    }

    /** `connectionCount`. */
    method ConnectionCount() returns (n: nat)
      ensures n == |connections|
    {
      n := |connections|;
    }

    /** `stop`: the registry is left as it is. */
    method Stop()
      modifies this
      ensures !running && state == NoRole
      ensures connections == old(connections) && versions == old(versions)
    {
      running := false;
      state := NoRole;
    }

    /** `sendMessage` over the current registry. */
    method SendMessage(length: nat, dst: Options.Option<Peer>, src: Options.Option<ValueSource>,
                       transport: (Peer, nat) -> int) returns (ok: bool, sentTo: seq<Peer>)
      ensures length == 0 ==> !ok && sentTo == []
      ensures length > 0 && dst.Some? ==> sentTo == [dst.value] && ok == (transport(dst.value, length) == length)
      ensures length > 0 && dst.None? ==> sentTo == Recipients(connections, src) && ok == AllSent(sentTo, length, transport)
    {
      ok, sentTo := ServerSendMessage(connections, length, dst, src, transport);
    }

    /**
     * `waitForConnections`: outside the server role it returns 0 at once. In the
     * server role `polls` stands for the registry sizes the polling loop observes
     * before its deadline; it returns the first size reaching `count`, else the
     * last one observed, truncated to 16 bits.
     */
    method WaitForConnections(count: U16, polls: seq<nat>) returns (r: U16)
      ensures state != ServerRole ==> r == 0
      ensures state == ServerRole ==> r == PollResult(|connections|, polls, count) % 0x1_0000
    {
      if state != ServerRole {
        return 0;
      }
      var existing: nat := 0;
      var total: nat := |connections|;
      var i := 0;
      while i < |polls|
        invariant 0 <= i <= |polls|
        invariant PollResult(total, polls[i..], count) == PollResult(|connections|, polls, count)
      {
        assert polls[i..][1..] == polls[i + 1..];
        total := polls[i];
        if total - existing >= count {
          return (total - existing) % 0x1_0000;
        }
        i := i + 1;
      }
      r := (total - existing) % 0x1_0000;
    }
  }

  /** What the caller of `CommandClient::start` sees. */
  datatype StartOutcome = Returned(ok: bool) | Blocked

  class CommandClient {
    const tags: Tags
    const socket: Peer
    var running: bool
    var state: BarrierState

    constructor(t: Tags, s: Peer)
      ensures tags == t && socket == s && !running && state == NoRole
    {
      tags, socket := t, s;
      running, state := false, NoRole;
    }

    /**
     * `start`: `isOpen` and `connected` are the socket calls' outcomes and
     * `reply` the bytes received after the handshake. The worker only signals
     * the waiting caller once the ack is accepted, so a failed connect or a bad
     * reply leaves `start` waiting.
     */
    method Start(isOpen: bool, connected: bool, reply: seq<Byte>) returns (outcome: StartOutcome, sent: seq<Byte>)
      requires |reply| <= 8
      modifies this
      ensures !isOpen ==> outcome == Returned(false) && sent == []
      ensures isOpen && !connected ==> outcome == Blocked && sent == []
      ensures !(isOpen && connected) ==> running == old(running) && state == old(state)
      ensures isOpen && connected ==>
                && running && state == ClientRole
                && sent == ClientHandshake(tags, socket.port)
                && outcome == (if ClientAcceptsAck(tags, reply) then Returned(true) else Blocked)
    {
      sent := [];
      if !isOpen {
        return Returned(false), [];
      }
      if !connected {
        return Blocked, [];
      }
      state := ClientRole;
      running := true;
      sent := ClientHandshake(tags, socket.port);
      if |reply| == 2 && reply[0] == tags.handshakeAck {
        outcome := Returned(true);
      } else {
        outcome := Blocked;
      }
    }

    /** `sendMessage` through the client's one socket. */
    method SendMessage(length: nat, dst: Options.Option<Peer>, src: Options.Option<ValueSource>,
                       transport: (Peer, nat) -> int) returns (ok: bool, sentTo: seq<Peer>)
      ensures length == 0 ==> !ok && sentTo == []
      ensures length > 0 && dst.Some? && dst.value == socket ==> ok && sentTo == []
      ensures length > 0 && dst.Some? && dst.value != socket ==>
                sentTo == [dst.value] && ok == (transport(dst.value, length) == length)
      ensures length > 0 && dst.None? ==> sentTo == Recipients([socket], src) && ok == AllSent(sentTo, length, transport)
    {
      ok, sentTo := ClientSendMessage(socket, length, dst, src, transport);
      if dst.Some? {
        AllSentAppend([], dst.value, length, transport);
        assert [] + [dst.value] == [dst.value];
      }
    }

    /** `CommandConnection::stop`. */
    method Stop()
      modifies this
      ensures !running && state == NoRole
    {
      running := false;
      state := NoRole;
    }
  }
}
