/** PackedMessage (shared/PackedMessage.cpp) and the sending and reading of a Peer (src/Peer/Peer.cpp). */
module PeerImpl {
  import opened Wrappers
  import opened Numerals
  import opened SerializerSpec
  import opened SerializerImpl
  import opened Framing
  import opened PeerLink

  class PackedMessage {
    var buffer: array<byte>

    /** encodeHeader; the size is an unsigned, the type an int of which two bytes are kept. */
    method EncodeHeader(size: nat, kind: int)
      requires buffer.Length >= HEADER_SIZE && size < 0x1_0000_0000
      modifies buffer
      ensures buffer[..HEADER_SIZE] == Header(size, kind)
      ensures buffer[HEADER_SIZE..] == old(buffer[HEADER_SIZE..])
    {
      var k := kind % 0x1_0000;
      buffer[0] := size / 0x100_0000 % 256;
      buffer[1] := size / 0x1_0000 % 256;
      buffer[2] := size / 0x100 % 256;
      buffer[3] := size % 256;
      buffer[4] := k / 0x100 % 256;
      buffer[5] := k % 256;
      BigEndianFour(size);
      BigEndianTwo(k);
      hide BigEndian;
      assert buffer[..4] == BigEndian(size, 4) && buffer[4..6] == BigEndian(k, 2);
      assert buffer[..6] == buffer[..4] + buffer[4..6];
    }

    constructor (m: Message)
      requires |m.body| < 0x8000_0000
      ensures fresh(buffer) && buffer[..] == Frame(m)
    {
      hide Header;
      buffer := new byte[HEADER_SIZE + |m.body|];
      new;
      EncodeHeader(|m.body|, m.kind);
      ghost var head := buffer[..HEADER_SIZE];
      forall j | 0 <= j < |m.body| { buffer[HEADER_SIZE + j] := m.body[j]; }
      assert buffer[..HEADER_SIZE] == head;
      assert buffer[HEADER_SIZE..] == m.body;
      assert buffer[..] == buffer[..HEADER_SIZE] + buffer[HEADER_SIZE..];
    }
  }

  class Peer {
    var sendQ: seq<Message>
    var sending: Option<Message>
    var detaching: bool
    var helloed: bool
    var readBuf: Bytes
    // What the socket has been asked to do and has not done: writes, and a read.
    var writes: seq<Bytes>
    var phase: Phase
    // History: packets given to sendPacket and those whose writes were started, bytes of failed writes,
    // messages given to processReadBuffer and those it let through.
    ghost var given: seq<Message>
    ghost var started: seq<Message>
    ghost var lost: Bytes
    ghost var delivered: seq<Message>
    ghost var handled: seq<Message>

    ghost function Sending(): Out
      reads this
    {
      Out(sendQ, sending, detaching, writes, started)
    }

    ghost function Receiving(): In
      reads this
    {
      In(readBuf, phase, detaching, helloed, delivered, handled)
    }

    /** One write at a time, packets in the order given and none waiting without a write in flight; a read
        that is for what the buffer calls for; messages let through only behind a hello. */
    ghost predicate Valid()
      reads this
    {
      OutInv(Sending(), given, lost) && ReadInv(Receiving()) && GateInv(Receiving())
    }

    // The half that an event does not concern: untouched, or detached along with the other.
    twostate predicate SendingFollows()
      reads this
    {
      && given == old(given) && lost == old(lost)
      && Sending() == if detaching then DetachOut(old(Sending())) else old(Sending())
    }

    twostate predicate ReceivingFollows()
      reads this
    {
      Receiving() == if detaching then DetachIn(old(Receiving())) else old(Receiving())
    }

    // A peer whose handshake is over and whose first read is out.
    constructor ()
      ensures Valid() && Sending() == START.out && Receiving() == START.reader && given == [] && lost == []
    {
      sendQ, sending, detaching, helloed := [], None, false, false;
      readBuf, writes, phase := [], [], Reading(HEADER_SIZE, false);
      given, started, lost, delivered, handled := [], [], [], [], [];
    }

    method SendPacketForce(packet: Message)
      modifies this`sending, this`writes, this`started
      ensures Sending() == SendForce(old(Sending()), packet)
    {
      if !detaching {
        sending := Some(packet);
        writes := writes + [Frame(packet)];
        started := started + [packet];
      }
    }

    /** sendPacket */
    method SendPacket(packet: Message)
      requires Valid() && |packet.body| < 0x8000_0000
      modifies this
      ensures Valid() && given == old(given) + [packet] && lost == old(lost)
      ensures Sending() == Send(old(Sending()), packet) && ReceivingFollows()
      ensures !detaching ==> started + sendQ == given
      ensures detaching ==> writes == old(writes) && started == old(started)
    {
      ghost var o := Sending();
      given := given + [packet];
      if sending.Some? { sendQ := sendQ + [packet]; } else { SendPacketForce(packet); }
      SendOut(o, old(given), lost, packet);
    }

    /** detach: nothing waits any more, and what Valid says still holds. */
    method Detach()
      modifies this`detaching, this`sendQ
      ensures detaching && (old(Valid()) ==> Valid())
      ensures Sending() == DetachOut(old(Sending())) && Receiving() == DetachIn(old(Receiving()))
      ensures SendingFollows() && ReceivingFollows()
    {
      if !detaching {
        detaching := true;
        sendQ := [];
      }
      if old(Valid()) { CloseHalves(old(Sending()), given, lost, old(Receiving())); }
    }

    /** The socket is done with write w and calls handle_write: the front of the queue goes out before it is
        popped, so another write is in flight exactly if a packet was waiting. */
    method HandleWrite(w: nat, error: bool)
      requires Valid() && w < |writes| && (error || writes[w] == [])
      modifies this
      ensures Valid() && given == old(given) && lost == old(lost) + old(writes[w])
      ensures Sending() == WriteOut(old(Sending()), w, error) && ReceivingFollows()
      ensures detaching <==> old(detaching) || error
      ensures error ==> writes == []
      ensures !detaching ==> (writes == [] <==> old(sendQ) == []) && started + sendQ == given
    {
      ghost var o, i := Sending(), Receiving();
      WriteDoneOut(o, given, lost, w, error);
      CloseHalves(o, given, lost, i);
      hide OutInv, ReadInv, GateInv, Frame;
      lost := lost + writes[w];
      writes := writes[..w] + writes[w + 1..];
      sending := None;
      if detaching {
      } else if error {
        Detach();
      } else if sendQ != [] {
        SendPacketForce(sendQ[0]);
        sendQ := sendQ[1..];
      }
    }

    method StartReadHeader()
      modifies this`readBuf, this`phase
      ensures Receiving() == StartHeader(old(Receiving()))
    {
      if !detaching {
        readBuf := [];
        phase := Reading(HEADER_SIZE, false);
      }
    }

    method StartReadBody(n: nat)
      modifies this`phase
      ensures Receiving() == StartBody(old(Receiving()), n)
    {
      if !detaching { phase := Reading(HEADER_SIZE + n, true); }
    }

    // Bytes reach the outstanding read.
    method Fill(bytes: Bytes)
      requires Valid() && phase.Reading? && |readBuf| + |bytes| <= phase.want
      modifies this`readBuf
      ensures Valid() && readBuf == old(readBuf) + bytes && Receiving() == old(Receiving()).(buf := readBuf)
    {
      FillIn(Receiving(), bytes);
      readBuf := readBuf + bytes;
    }

    /** The read of a header is over and handle_read_header is called: the body the header announces is read
        next, or the peer is detaching; nothing is delivered. */
    method HandleReadHeader(error: bool)
      requires Valid() && phase.Reading? && !phase.body && (error || |readBuf| == phase.want)
      modifies this`phase, this`detaching, this`sendQ
      ensures Valid() && SendingFollows()
      ensures Receiving() == ReadIn(old(Receiving()), error, Nothing)
      ensures delivered == old(delivered) && readBuf == old(readBuf)
      ensures detaching <==> old(detaching) || error || GetLength(readBuf) > MAX_BODY
      ensures !detaching ==> phase == Reading(HEADER_SIZE + GetLength(readBuf), true)
    {
      hide GetLength;
      ghost var o, i := Sending(), Receiving();
      phase := Idle;
      if detaching {
      } else if !error && GetLength(readBuf) <= MAX_BODY {
        StartReadBody(GetLength(readBuf));
      } else {
        Detach();
      }
      CloseHalves(o, given, lost, i);
      ReadDoneIn(i, error, Nothing);
    }

    /** processReadBuffer; `h` is what the handler of the message does. */
    method ProcessReadBuffer(h: Handling)
      requires !detaching
      modifies this`detaching, this`sendQ, this`helloed, this`delivered, this`handled
      ensures Receiving() == Process(old(Receiving()), h) && SendingFollows()
    {
      hide GetType;
      var kind := GetType(readBuf);
      ghost var m := Message(kind, if |readBuf| < HEADER_SIZE then [] else readBuf[HEADER_SIZE..]);
      delivered := delivered + [m];
      if helloed == (kind == HELLO) {
        Detach();
      } else {
        handled := handled + [m];
        if h.Drops? {
          Detach();
        } else if h.Hellos? && kind == HELLO {
          helloed := true;
        }
      }
    }

    /** The read of a body is over and handle_read_body is called: the frame in the buffer is delivered, once
        and whole, and the next header is read, unless the peer is detaching. */
    method HandleReadBody(error: bool, h: Handling)
      requires Valid() && phase.Reading? && phase.body && (error || |readBuf| == phase.want)
      modifies this
      ensures Valid() && SendingFollows()
      ensures Receiving() == ReadIn(old(Receiving()), error, h)
      ensures if old(detaching) || error then delivered == old(delivered)
              else Frames(delivered) == Frames(old(delivered)) + old(readBuf)
      ensures detaching <==> || old(detaching) || error || h.Drops?
                             || (old(helloed) <==> GetType(old(readBuf)) == HELLO)
      ensures !detaching ==> phase == Reading(HEADER_SIZE, false) && readBuf == [] && handled == delivered
    {
      hide GetLength, GetType, Frame, Frames;
      ghost var o, i := Sending(), Receiving();
      phase := Idle;
      if detaching {
      } else if !error {
        ProcessReadBuffer(h);
        StartReadHeader();
      } else {
        Detach();
      }
      CloseHalves(o, given, lost, i);
      ReadDoneIn(i, error, h);
    }

    // The outstanding read is over, whichever it was.
    method HandleRead(error: bool, h: Handling)
      requires Valid() && phase.Reading? && (error || |readBuf| == phase.want)
      modifies this
      ensures Valid() && SendingFollows() && Receiving() == ReadIn(old(Receiving()), error, h)
    {
      hide OutInv, ReadInv, GateInv, Frames, Process;
      if phase.body {
        HandleReadBody(error, h);
      } else {
        HandleReadHeader(error);
      }
    }
  }
}
