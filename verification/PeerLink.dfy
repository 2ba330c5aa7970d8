/**
 One direction of a connection between two peers (src/Peer/Peer.cpp): the sender's queue and the write in
 flight, the bytes on the way, and the framing reader at the other end.  Sockets are steps: a write gives
 up some of its bytes or completes, bytes arrive, a read completes.
 */
module PeerLink {
  import opened Wrappers
  import opened SerializerSpec
  import opened Framing

  const MAX_BODY := 32 * 1024 * 1024
  const HELLO := 1

  // The sending half of a peer, the writes the socket has not completed, and the messages whose writes were
  // started.
  datatype Out = Out(queue: seq<Message>, sending: Option<Message>, detaching: bool, writes: seq<Bytes>,
                     started: seq<Message>)

  // The outstanding read: how much it fills the buffer to, and whether that is header or body.
  datatype Phase = Reading(want: nat, body: bool) | Idle

  // The reading half, the messages given to processReadBuffer, and those it let through.
  datatype In = In(buf: Bytes, phase: Phase, detaching: bool, helloed: bool, delivered: seq<Message>,
                   handled: seq<Message>)

  // What the handler of a message did.
  datatype Handling = Nothing | Hellos | Drops

  ////////// Sending //////////

  /** sendPacketForce */
  function SendForce(o: Out, m: Message): Out {
    if o.detaching then o
    else o.(sending := Some(m), writes := o.writes + [Frame(m)], started := o.started + [m])
  }

  /** sendPacket */
  function Send(o: Out, m: Message): Out {
    if o.sending.Some? then o.(queue := o.queue + [m]) else SendForce(o, m)
  }

  /** detach, as far as sending goes */
  function DetachOut(o: Out): Out {
    if o.detaching then o else o.(detaching := true, queue := [])
  }

  /** handle_write */
  function HandleWrite(o: Out, error: bool): Out {
    var o1 := o.(sending := None);
    if o.detaching then o1
    else if error then DetachOut(o1)
    else if o.queue != [] then var o2 := SendForce(o1, o.queue[0]); o2.(queue := o2.queue[1..])
    else o1
  }

  ////////// Reading //////////

  function DetachIn(i: In): In { i.(detaching := true) }

  /** start_read_header */
  function StartHeader(i: In): In {
    if i.detaching then i else i.(buf := [], phase := Reading(HEADER_SIZE, false))
  }

  /** start_read_body */
  function StartBody(i: In, n: nat): In {
    if i.detaching then i else i.(phase := Reading(HEADER_SIZE + n, true))
  }

  /** handle_read_header, once its read is over */
  function HandleHeader(i: In, error: bool): In {
    if i.detaching then i
    else if error || GetLength(i.buf) > MAX_BODY then DetachIn(i)
    else StartBody(i, GetLength(i.buf))
  }

  /** processReadBuffer: a hello is wanted before anything else, and once. */
  function Process(i: In, h: Handling): In {
    var m := Message(GetType(i.buf), if |i.buf| < HEADER_SIZE then [] else i.buf[HEADER_SIZE..]);
    var i1 := i.(delivered := i.delivered + [m]);
    if i.helloed == (m.kind == HELLO) then DetachIn(i1)
    else
      var i2 := i1.(handled := i.handled + [m]);
      if h.Drops? then DetachIn(i2)
      else if h.Hellos? && m.kind == HELLO then i2.(helloed := true)
      else i2
  }

  /** handle_read_body, once its read is over */
  function HandleBody(i: In, error: bool, h: Handling): In {
    if i.detaching then i else if error then DetachIn(i) else StartHeader(Process(i, h))
  }

  // The socket is done with a write, or with the outstanding read.
  function WriteOut(o: Out, w: nat, error: bool): Out
    requires w < |o.writes|
  {
    HandleWrite(o.(writes := o.writes[..w] + o.writes[w + 1..]), error)
  }

  function ReadIn(i: In, error: bool, h: Handling): In
    requires i.phase.Reading?
  {
    var idle := i.(phase := Idle);
    if i.phase.body then HandleBody(idle, error, h) else HandleHeader(idle, error)
  }

  ////////// Steps //////////

  // The two halves, the bytes on the way, all messages ever given to sendPacket, and bytes of failed writes.
  datatype Link = Link(out: Out, reader: In, wire: Bytes, given: seq<Message>, lost: Bytes)

  datatype Step =
    | Give(m: Message)                       // sendPacket
    | Push(w: nat, n: nat)                   // the socket takes n bytes of write w
    | WriteDone(w: nat, error: bool)           // write w completes
    | CloseOut                               // detach at the sender
    | Arrive(n: nat)                         // n bytes reach the outstanding read
    | ReadDone(error: bool, h: Handling)     // the outstanding read completes
    | CloseIn                                // detach at the reader

  predicate Enabled(l: Link, s: Step) {
    match s
    case Give(m) => |m.body| < 0x8000_0000
    case Push(w, n) => w < |l.out.writes| && n <= |l.out.writes[w]|
    case WriteDone(w, error) => w < |l.out.writes| && (error || l.out.writes[w] == [])
    case Arrive(n) => l.reader.phase.Reading? && n <= |l.wire| && |l.reader.buf| + n <= l.reader.phase.want
    case ReadDone(error, _) => l.reader.phase.Reading? && (error || |l.reader.buf| == l.reader.phase.want)
    case _ => true
  }

  function Next(l: Link, s: Step): Link
    requires Enabled(l, s)
  {
    match s
    case Give(m) => l.(out := Send(l.out, m), given := l.given + [m])
    case Push(w, n) =>
      var b := l.out.writes[w];
      l.(out := l.out.(writes := l.out.writes[w := b[n..]]), wire := l.wire + b[..n])
    case WriteDone(w, error) => l.(out := WriteOut(l.out, w, error), lost := l.lost + l.out.writes[w])
    case CloseOut => l.(out := DetachOut(l.out))
    case Arrive(n) => l.(reader := l.reader.(buf := l.reader.buf + l.wire[..n]), wire := l.wire[n..])
    case ReadDone(error, h) => l.(reader := ReadIn(l.reader, error, h))
    case CloseIn => l.(reader := DetachIn(l.reader))
  }

  // Both ends after the handshake, the first header being read.
  const START :=
    Link(Out([], None, false, [], []), In([], Reading(HEADER_SIZE, false), false, false, [], []), [], [], [])

  ghost predicate Enables(l: Link, steps: seq<Step>)
    decreases |steps|
  {
    steps == [] || (Enabled(l, steps[0]) && Enables(Next(l, steps[0]), steps[1..]))
  }

  ghost function Run(l: Link, steps: seq<Step>): Link
    requires Enables(l, steps)
    decreases |steps|
  {
    if steps == [] then l else Run(Next(l, steps[0]), steps[1..])
  }

  ////////// What every step keeps //////////

  function Flight(ws: seq<Bytes>): Bytes {
    if ws == [] then [] else ws[0] + Flight(ws[1..])
  }

  // One write at a time, messages in the order given, no queue without a write that will come back to it.
  ghost predicate OutInv(o: Out, given: seq<Message>, lost: Bytes) {
    && Sized(given)
    && |o.writes| == (if o.sending.Some? then 1 else 0)
    && (!o.detaching ==> given == o.started + o.queue)
    && o.started <= given
    && (!o.detaching && o.queue != [] ==> o.sending.Some?)
    && (lost != [] ==> o.detaching && o.writes == [])
  }

  // The outstanding read is for what the buffer calls for.
  ghost predicate ReadInv(i: In) {
    && (i.phase.Reading? && !i.phase.body ==> i.phase.want == HEADER_SIZE && |i.buf| <= HEADER_SIZE)
    && (i.phase.Reading? && i.phase.body ==>
          && HEADER_SIZE <= |i.buf| <= i.phase.want && GetLength(i.buf) <= MAX_BODY
          && i.phase.want == HEADER_SIZE + GetLength(i.buf))
    && (i.phase.Idle? ==> i.detaching)
  }

  predicate Small(m: Message) { 0 <= m.kind < 0x1_0000 && |m.body| <= MAX_BODY }

  // Everything delivered is let through, but for a last message that was out of turn; hellos come first.
  ghost predicate GateInv(i: In) {
    && (forall k | 0 <= k < |i.delivered| :: Small(i.delivered[k]))
    && (i.handled == i.delivered
        || (i.detaching && i.delivered != [] && i.handled == i.delivered[..|i.delivered| - 1]))
    && (!i.helloed ==> forall k | 0 <= k < |i.handled| :: i.handled[k].kind == HELLO)
    && (i.helloed ==> i.handled != [] && i.handled[0].kind == HELLO)
    && (forall j, k | 0 <= j < k < |i.handled| && i.handled[k].kind == HELLO :: i.handled[j].kind == HELLO)
  }

  // No byte is lost, made up or moved between the writes started and the messages delivered.
  ghost predicate Conserved(l: Link) {
    if l.reader.phase.Reading?
    then Frames(l.reader.delivered) + (l.reader.buf + l.wire + Flight(l.out.writes) + l.lost) == Frames(l.out.started)
    else Frames(l.reader.delivered) <= Frames(l.out.started)
  }

  ghost predicate Inv(l: Link) {
    OutInv(l.out, l.given, l.lost) && ReadInv(l.reader) && GateInv(l.reader) && Conserved(l)
  }

  ////////// One half at a time //////////

  lemma {:induction false} SendOut(o: Out, given: seq<Message>, lost: Bytes, m: Message)
    requires OutInv(o, given, lost) && |m.body| < 0x8000_0000
    ensures OutInv(Send(o, m), given + [m], lost)
  {
    hide Frame;
    var o' := Send(o, m);
    assert o'.started <= given + [m];
    if !o.detaching {
      assert o.started + o.queue + [m] == o.started + (o.queue + [m]);
      assert o.queue == [] ==> o.started + o.queue + [m] == o.started + [m] + [];
    }
  }

  lemma {:induction false} WriteDoneOut(o: Out, given: seq<Message>, lost: Bytes, w: nat, error: bool)
    requires OutInv(o, given, lost) && w < |o.writes| && (error || o.writes[w] == [])
    ensures lost == [] && OutInv(WriteOut(o, w, error), given, lost + o.writes[w])
    ensures !o.detaching && !error && o.queue != [] ==> WriteOut(o, w, error).writes == [Frame(o.queue[0])]
    ensures error || o.detaching ==> WriteOut(o, w, error).detaching && WriteOut(o, w, error).writes == []
    ensures !o.detaching && !error ==>
              var o' := WriteOut(o, w, error);
              (o'.writes == [] <==> o.queue == []) && o'.started + o'.queue == given
  {
    hide Frame;
    assert o.writes[..w] + o.writes[w + 1..] == [];
    if !o.detaching && o.queue != [] {
      assert o.started + o.queue == o.started + [o.queue[0]] + o.queue[1..];
    }
  }

  lemma {:induction false} CloseHalves(o: Out, given: seq<Message>, lost: Bytes, i: In)
    requires OutInv(o, given, lost) && ReadInv(i) && GateInv(i)
    ensures OutInv(DetachOut(o), given, lost) && ReadInv(DetachIn(i)) && GateInv(DetachIn(i))
  {
    hide GetLength;
  }

  lemma {:induction false} FillIn(i: In, bytes: Bytes)
    requires ReadInv(i) && GateInv(i) && i.phase.Reading? && |i.buf| + |bytes| <= i.phase.want
    ensures ReadInv(i.(buf := i.buf + bytes)) && GateInv(i.(buf := i.buf + bytes))
  {
    hide GetLength;
    if i.phase.body { LengthStays(i.buf, bytes); }
  }

  lemma {:induction false} LengthStays(s: Bytes, t: Bytes)
    requires |s| >= HEADER_SIZE
    ensures GetLength(s + t) == GetLength(s)
  {
    assert (s + t)[..4] == s[..4];
  }

  // A full buffer is the frame of the message it is taken for.
  lemma {:induction false} FullBuffer(buf: Bytes)
    requires |buf| == HEADER_SIZE + GetLength(buf)
    ensures Frame(Message(GetType(buf), buf[HEADER_SIZE..])) == buf && GetType(buf) < 0x1_0000
  {
    hide GetLength, GetType, Header;
    HeaderIs(buf);
    assert GetType(buf) % 0x1_0000 == GetType(buf);
    assert buf == buf[..HEADER_SIZE] + buf[HEADER_SIZE..];
  }

  // The gate, when the buffer is a message m.
  lemma {:induction false} ProcessKeeps(i: In, h: Handling)
    requires GateInv(i) && !i.detaching && HEADER_SIZE <= |i.buf| <= HEADER_SIZE + MAX_BODY
    ensures GateInv(Process(i, h))
  {
    hide GetLength, GetType;
    HeaderIs(i.buf);
    var m := Message(GetType(i.buf), i.buf[HEADER_SIZE..]);
    assert (i.delivered + [m])[..|i.delivered|] == i.delivered;
  }

  // A read that is over: what was delivered grew by the buffer, or not at all.
  lemma {:induction false} ReadDoneIn(i: In, error: bool, h: Handling)
    requires ReadInv(i) && GateInv(i) && i.phase.Reading? && (error || |i.buf| == i.phase.want)
    ensures var i' := ReadIn(i, error, h);
            && ReadInv(i') && GateInv(i')
            && (if i.phase.body && !i.detaching && !error then Frames(i'.delivered) == Frames(i.delivered) + i.buf
                else i'.delivered == i.delivered && i'.buf == i.buf)
            && (i.phase.body && i'.phase.Reading? ==> i'.buf == [])
  {
    hide Frame, Frames, GetLength, GetType;
    if i.phase.body && !i.detaching && !error {
      ProcessKeeps(i.(phase := Idle), h);
      FullBuffer(i.buf);
      FramesSnoc(i.delivered, Message(GetType(i.buf), i.buf[HEADER_SIZE..]));
    }
  }

  ////////// The byte stream //////////

  lemma {:induction false} FlightOne(ws: seq<Bytes>)
    requires |ws| <= 1
    ensures Flight(ws) == if ws == [] then [] else ws[0]
  {
    if ws != [] { assert ws[1..] == []; }
  }

  // Starting a write when none is in flight appends a frame at the sender's end of the stream.
  lemma {:induction false} StartKeeps(l: Link, o: Out, m: Message)
    requires Conserved(l) && l.out.writes == [] && l.lost == []
    requires o.writes == [Frame(m)] && o.started == l.out.started + [m]
    ensures Conserved(l.(out := o))
  {
    hide Frame, Frames;
    FramesSnoc(l.out.started, m);
    FlightOne(o.writes);
    FlightOne(l.out.writes);
    if l.reader.phase.Reading? {
      var a, b, c := Frames(l.reader.delivered), l.reader.buf + l.wire, Frame(m);
      assert b + [] + [] == b && b + c + [] == b + c;
      assert a + b + c == a + (b + c);
    }
  }

  lemma {:induction false} SendKeeps(l: Link, m: Message)
    requires Inv(l) && Enabled(l, Give(m))
    ensures Inv(Next(l, Give(m)))
  {
    hide Frame, Frames, GateInv, ReadInv, Flight;
    SendOut(l.out, l.given, l.lost, m);
    if l.out.sending.None? && !l.out.detaching {
      assert l.out.writes == [];
      assert Send(l.out, m).writes == [Frame(m)];
      StartKeeps(l, Send(l.out, m), m);
    }
  }

  lemma {:induction false} PushKeeps(l: Link, w: nat, n: nat)
    requires Inv(l) && Enabled(l, Push(w, n))
    ensures Inv(Next(l, Push(w, n)))
  {
    hide Frame, Frames, GateInv, ReadInv, Sized, Flight;
    var b := l.out.writes[0];
    var l' := Next(l, Push(w, n));
    assert l'.out.writes == [b[n..]];
    FlightOne(l.out.writes);
    FlightOne(l'.out.writes);
    assert b == b[..n] + b[n..];
    Shift(l.reader.buf, l.wire, b[..n], b[n..], l.lost);
  }

  lemma {:induction false} Shift(a: Bytes, b: Bytes, c: Bytes, d: Bytes, e: Bytes)
    ensures a + (b + c) + d + e == a + b + (c + d) + e
  {}

  lemma {:induction false} WriteKeeps(l: Link, w: nat, error: bool)
    requires Inv(l) && Enabled(l, WriteDone(w, error))
    ensures Inv(Next(l, WriteDone(w, error)))
  {
    hide Frame, Frames, GateInv, ReadInv, Sized, Flight;
    var o, b := l.out, l.out.writes[0];
    WriteDoneOut(o, l.given, l.lost, w, error);
    var rest := o.writes[..w] + o.writes[w + 1..];
    assert rest == [];
    var l1 := l.(out := o.(writes := rest, sending := None), lost := l.lost + b);
    FailKeeps(l, l1);
    var l' := Next(l, WriteDone(w, error));
    if !o.detaching && !error && o.queue != [] {
      StartKeeps(l1, l'.out, o.queue[0]);
      assert l' == l1.(out := l'.out);
    }
  }

  // What is left of the only write in flight counts as lost.
  lemma {:induction false} FailKeeps(l: Link, l': Link)
    requires Conserved(l) && |l.out.writes| == 1 && l.lost == []
    requires l'.out.writes == [] && l'.lost == [] + l.out.writes[0] && l'.out.started == l.out.started
    requires l'.reader == l.reader && l'.wire == l.wire
    ensures Conserved(l')
  {
    hide Frames;
    FlightOne(l.out.writes);
    FlightOne(l'.out.writes);
    var x, b := l.reader.buf + l.wire, l.out.writes[0];
    assert [] + b == b && x + b + [] == x + [] + b;
  }

  lemma {:induction false} ArriveKeeps(l: Link, n: nat)
    requires Inv(l) && Enabled(l, Arrive(n))
    ensures Inv(Next(l, Arrive(n)))
  {
    hide Frame, Frames, OutInv, Flight, GateInv, ReadInv;
    FillIn(l.reader, l.wire[..n]);
    var b, c := l.reader.buf, l.wire;
    assert c == c[..n] + c[n..];
    assert b + c[..n] + c[n..] == b + c;
  }

  lemma {:induction false} PrefixOf(l: Link)
    requires Conserved(l)
    ensures Frames(l.reader.delivered) <= Frames(l.out.started)
  {
    hide Frames, Flight;
  }

  lemma {:induction false} ReadKeeps(l: Link, error: bool, h: Handling)
    requires Inv(l) && Enabled(l, ReadDone(error, h))
    ensures Inv(Next(l, ReadDone(error, h)))
  {
    hide Frame, Frames, OutInv, Flight, GateInv, ReadInv, ReadIn;
    PrefixOf(l);
    ReadDoneIn(l.reader, error, h);
    var i, i' := l.reader, ReadIn(l.reader, error, h);
    var a, x, y, z := Frames(i.delivered), l.wire, Flight(l.out.writes), l.lost;
    if i.phase.body && !i.detaching && !error {
      assert a + (i.buf + x + y + z) == a + i.buf + ([] + x + y + z);
    } else if i.phase.body {
      ReadStops(i, error, h);
    }
  }

  lemma {:induction false} ReadStops(i: In, error: bool, h: Handling)
    requires i.phase.Reading? && i.phase.body && (i.detaching || error)
    ensures ReadIn(i, error, h).phase.Idle?
  {}

  /** Every step keeps the invariant. */
  lemma {:induction false} StepKeeps(l: Link, s: Step)
    requires Inv(l) && Enabled(l, s)
    ensures Inv(Next(l, s))
  {
    match s
    case Give(m) => SendKeeps(l, m);
    case Push(w, n) => PushKeeps(l, w, n);
    case WriteDone(w, error) => WriteKeeps(l, w, error);
    case CloseOut => CloseHalves(l.out, l.given, l.lost, l.reader);
    case Arrive(n) => ArriveKeeps(l, n);
    case ReadDone(error, h) => ReadKeeps(l, error, h);
    case CloseIn => CloseHalves(l.out, l.given, l.lost, l.reader);
  }

  lemma {:induction false} RunKeeps(l: Link, steps: seq<Step>)
    requires Inv(l) && Enables(l, steps)
    ensures Inv(Run(l, steps))
    decreases |steps|
  {
    hide Inv, Next;
    if steps != [] {
      StepKeeps(l, steps[0]);
      RunKeeps(Next(l, steps[0]), steps[1..]);
    }
  }

  lemma {:induction false} StartGood()
    ensures Inv(START)
  {
    var none: Bytes := [];
    assert none + (none + none + none + none) == none;
  }

  ////////// Whole runs //////////

  /** In every run the messages delivered are the first messages given to sendPacket, in that order. */
  lemma {:induction false} DeliveredInOrder(steps: seq<Step>)
    requires Enables(START, steps)
    ensures var l := Run(START, steps);
            |l.reader.delivered| <= |l.given| && l.reader.delivered == ArrivedAll(l.given[..|l.reader.delivered|])
  {
    StartGood();
    RunKeeps(START, steps);
    DeliveredOf(Run(START, steps));
  }

  lemma {:induction false} DeliveredOf(l: Link)
    requires Inv(l)
    ensures |l.reader.delivered| <= |l.given| && l.reader.delivered == ArrivedAll(l.given[..|l.reader.delivered|])
  {
    hide Frame, Frames, Flight, ArrivedAll, ReadInv;
    PrefixOf(l);
    hide Conserved;
    var ds, ms := l.reader.delivered, l.out.started;
    DeliveredSmall(ds);
    assert Frames(ms) == Frames(ds) + Frames(ms)[|Frames(ds)|..];
    FramesPrefix(ds, Frames(ms)[|Frames(ds)|..], ms);
    assert l.given[..|ds|] == ms[..|ds|];
  }

  lemma {:induction false} DeliveredSmall(ds: seq<Message>)
    requires forall k | 0 <= k < |ds| :: Small(ds[k])
    ensures Sized(ds) && ArrivedAll(ds) == ds
  {
    if ds != [] {
      DeliveredSmall(ds[1..]);
      assert Small(ds[0]);
      assert ds == [ds[0]] + ds[1..];
      forall i | 0 <= i < |ds| ensures |ds[i].body| < 0x1_0000_0000 { assert Small(ds[i]); }
    }
  }

  /** In every run at most one write is in flight, and a message waits only while one is. */
  lemma {:induction false} OneWrite(steps: seq<Step>)
    requires Enables(START, steps)
    ensures var o := Run(START, steps).out;
            && |o.writes| <= 1 && (o.writes != [] <==> o.sending.Some?)
            && (!o.detaching && o.queue != [] ==> o.writes != [])
  {
    StartGood();
    RunKeeps(START, steps);
  }

  /** Once the sender is detaching no write starts, whatever happens. */
  lemma {:induction false} NoWriteAfterDetach(l: Link, steps: seq<Step>)
    requires l.out.detaching && Enables(l, steps)
    ensures Run(l, steps).out.detaching && Run(l, steps).out.started == l.out.started
    ensures |Run(l, steps).out.writes| <= |l.out.writes|
    decreases |steps|
  {
    if steps != [] {
      assert Next(l, steps[0]).out.detaching && Next(l, steps[0]).out.started == l.out.started;
      assert |Next(l, steps[0]).out.writes| <= |l.out.writes|;
      hide Next;
      NoWriteAfterDetach(Next(l, steps[0]), steps[1..]);
    }
  }

  /** In every run, messages are let through only behind a hello, and hellos only before all others; no
      body is above the limit; and what is delivered but not let through is one last message. */
  lemma {:induction false} HelloFirst(steps: seq<Step>)
    requires Enables(START, steps)
    ensures var i := Run(START, steps).reader;
            && (forall k | 0 <= k < |i.handled| :: i.handled[0].kind == HELLO && |i.handled[k].body| <= MAX_BODY)
            && (forall j, k | 0 <= j < k < |i.handled| && i.handled[k].kind == HELLO :: i.handled[j].kind == HELLO)
            && i.handled <= i.delivered && |i.delivered| <= |i.handled| + 1
            && (!i.detaching ==> i.handled == i.delivered)
  {
    StartGood();
    RunKeeps(START, steps);
    var i := Run(START, steps).reader;
    hide Run, Enables, Frame, Frames, Flight, OutInv, ReadInv, Conserved;
    forall k | 0 <= k < |i.handled| ensures |i.handled[k].body| <= MAX_BODY {
      assert i.handled[k] == i.delivered[k];
      assert Small(i.delivered[k]);
    }
  }

  /** When nothing is on its way and neither end has detached, everything given has been delivered. */
  lemma {:induction false} AllDelivered(steps: seq<Step>)
    requires Enables(START, steps)
    ensures var l := Run(START, steps);
            !l.out.detaching && !l.reader.detaching && l.out.writes == [] && l.wire == [] && l.reader.buf == []
            ==> l.reader.delivered == ArrivedAll(l.given)
  {
    StartGood();
    RunKeeps(START, steps);
    var l := Run(START, steps);
    hide Run, Enables, Frame, Frames;
    if !l.out.detaching && !l.reader.detaching && l.out.writes == [] && l.wire == [] && l.reader.buf == [] {
      var ds, ms := l.reader.delivered, l.out.started;
      DeliveredSmall(ds);
      assert l.given == ms;
      FlightOne(l.out.writes);
      assert Frames(ds) + [] == Frames(ms);
      FramesPrefix(ds, [], ms);
      NoFrames(ms[|ds|..]);
      assert ms[..|ds|] == ms;
    }
  }

  lemma {:induction false} NoFrames(ms: seq<Message>)
    requires Frames(ms) == []
    ensures ms == []
  {}

  ////////// What makes an end detach //////////

  // The steps after which the sender is detaching.
  predicate StopsSender(s: Step) { s == CloseOut || (s.WriteDone? && s.error) }

  // The steps after which the reader is: closing, a failed read, a body above the limit, a handler that drops
  // the peer, a hello after the first or another message before it.
  predicate StopsReader(l: Link, s: Step) {
    match s
    case CloseIn => true
    case ReadDone(error, h) =>
      || error
      || (if l.reader.phase.Reading? && l.reader.phase.body
          then h.Drops? || (l.reader.helloed <==> GetType(l.reader.buf) == HELLO)
          else GetLength(l.reader.buf) > MAX_BODY)
    case _ => false
  }

  /** An end is detaching after a step if and only if it was before or the step is one of these. */
  lemma {:induction false} DetachesIff(l: Link, s: Step)
    requires Enabled(l, s)
    ensures Next(l, s).out.detaching <==> l.out.detaching || StopsSender(s)
    ensures Next(l, s).reader.detaching <==> l.reader.detaching || StopsReader(l, s)
  {
    hide GetLength, GetType, Frame;
  }

  // A run in which nothing goes wrong.
  ghost predicate Smooth(l: Link, steps: seq<Step>)
    requires Enables(l, steps)
    decreases |steps|
  {
    steps == [] || (!StopsSender(steps[0]) && !StopsReader(l, steps[0]) && Smooth(Next(l, steps[0]), steps[1..]))
  }

  lemma {:induction false} SmoothStays(l: Link, steps: seq<Step>)
    requires Enables(l, steps) && Smooth(l, steps) && !l.out.detaching && !l.reader.detaching
    ensures !Run(l, steps).out.detaching && !Run(l, steps).reader.detaching
    decreases |steps|
  {
    hide Next, StopsReader;
    if steps != [] {
      DetachesIff(l, steps[0]);
      SmoothStays(Next(l, steps[0]), steps[1..]);
    }
  }

  // The steps that bring a message nearer.
  predicate Useful(s: Step) {
    match s
    case Push(_, n) => n > 0
    case WriteDone(_, error) => !error
    case Arrive(n) => n > 0
    case ReadDone(error, _) => !error
    case _ => false
  }

  // Bytes that are all of a stream of frames hold the first of them whole.
  lemma {:induction false} WholeFrame(ms: seq<Message>, buf: Bytes)
    requires Sized(ms) && ms != [] && buf == Frames(ms)
    ensures |buf| >= HEADER_SIZE + GetLength(buf)
  {
    hide GetLength;
    HeaderReads(ms[0], Frames(ms[1..]));
  }

  lemma {:induction false} StuckIsDone(l: Link)
    requires Inv(l) && !l.out.detaching && !l.reader.detaching
    requires l.out.writes == [] && l.wire == [] && |l.reader.buf| < l.reader.phase.want
    ensures l.reader.delivered == ArrivedAll(l.given)
  {
    hide Frame, Frames, GetLength;
    var ds, ms, buf := l.reader.delivered, l.out.started, l.reader.buf;
    DeliveredSmall(ds);
    FlightOne(l.out.writes);
    assert l.given == ms + [] == ms;
    assert buf + [] + [] + [] == buf;
    FramesPrefix(ds, buf, ms);
    var rest := ms[|ds|..];
    FramesWhole(rest, buf);
    assert rest == [];
    assert ms[..|ds|] == ms;
  }

  lemma {:induction false} FramesWhole(ms: seq<Message>, buf: Bytes)
    requires Sized(ms) && buf == Frames(ms)
    ensures ms == [] || |buf| >= HEADER_SIZE + GetLength(buf)
  {
    if ms != [] { WholeFrame(ms, buf); }
  }

  /** In every run in which nothing goes wrong, no end detaches, and as long as not everything given has been
      delivered a useful step is possible. */
  lemma {:induction false} SmoothRunGoesOn(steps: seq<Step>)
    requires Enables(START, steps) && Smooth(START, steps)
    ensures var l := Run(START, steps);
            && !l.out.detaching && !l.reader.detaching
            && (l.reader.delivered == ArrivedAll(l.given) || exists s :: Useful(s) && Enabled(l, s))
  {
    hide Inv, Enabled;
    StartGood();
    RunKeeps(START, steps);
    SmoothStays(START, steps);
    CanGoOn(Run(START, steps));
  }

  lemma {:induction false} CanGoOn(l: Link)
    requires Inv(l) && !l.out.detaching && !l.reader.detaching
    ensures l.reader.delivered == ArrivedAll(l.given) || exists s :: Useful(s) && Enabled(l, s)
  {
    hide OutInv, GateInv, Conserved, GetLength;
    var o, i := l.out, l.reader;
    if o.writes != [] {
      var b := o.writes[0];
      var s := if b == [] then WriteDone(0, false) else Push(0, |b|);
      assert Useful(s) && Enabled(l, s);
    } else if |i.buf| == i.phase.want {
      assert Useful(ReadDone(false, Nothing)) && Enabled(l, ReadDone(false, Nothing));
    } else if l.wire != [] {
      assert Useful(Arrive(1)) && Enabled(l, Arrive(1));
    } else {
      StuckIsDone(l);
    }
  }

  // What is still to be done: three moves for a byte not yet written, two for one on the way, one for one in the
  // buffer; a write to complete, a header to read.
  function QueueWork(q: seq<Message>): nat { if q == [] then 0 else 3 * |Frame(q[0])| + 2 + QueueWork(q[1..]) }

  function WriteWork(ws: seq<Bytes>): nat { if ws == [] then 0 else 3 * |ws[0]| + 1 + WriteWork(ws[1..]) }

  function ReadWork(i: In): nat { |i.buf| + if i.phase.Reading? && !i.phase.body then 1 else 0 }

  function Work(l: Link): nat {
    QueueWork(l.out.queue) + WriteWork(l.out.writes) + 2 * |l.wire| + ReadWork(l.reader)
  }

  /** Every useful step that is no fault leaves less to be done: so without new messages a run in which nothing
      goes wrong ends, and it ends with everything delivered. */
  lemma {:induction false} UsefulLessens(l: Link, s: Step)
    requires Inv(l) && !l.out.detaching && !l.reader.detaching
    requires Enabled(l, s) && Useful(s) && !StopsReader(l, s)
    ensures Work(Next(l, s)) < Work(l)
  {
    hide GetType, Frame, Conserved, GateInv;
    var o, l' := l.out, Next(l, s);
    match s
    case Push(w, n) =>
      OneWriteWork(o.writes);
      OneWriteWork(l'.out.writes);
    case WriteDone(w, _) =>
      OneWriteWork(o.writes);
      assert o.writes[..w] + o.writes[w + 1..] == [];
      if o.queue != [] { OneWriteWork([Frame(o.queue[0])]); }
      assert o.queue != [] ==> l'.out.writes == [Frame(o.queue[0])];
    case _ =>
  }

  lemma {:induction false} OneWriteWork(ws: seq<Bytes>)
    requires |ws| == 1
    ensures WriteWork(ws) == 3 * |ws[0]| + 1
  {
    assert ws[1..] == [];
  }
}
