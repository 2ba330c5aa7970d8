/**
 Two peers and the bytes between them.  Every event at either peer is a step of PeerLink in one direction and,
 if it makes the peer detach, the closing of the other; so all that PeerLink proves of runs holds of every
 connection.
 */
module ConnectionImpl {
  import opened SerializerSpec
  import opened Framing
  import opened PeerLink
  import opened PeerImpl

  class Connection {
    const left: Peer
    const right: Peer
    var toRight: Bytes
    var toLeft: Bytes
    // The steps taken so far in each direction.
    ghost var rightward: seq<Step>
    ghost var leftward: seq<Step>

    // A direction is true from left to right.
    function From(d: bool): Peer { if d then left else right }

    function To(d: bool): Peer { From(!d) }

    function Wire(d: bool): Bytes
      reads this
    {
      if d then toRight else toLeft
    }

    ghost function Trace(d: bool): seq<Step>
      reads this
    {
      if d then rightward else leftward
    }

    ghost function State(d: bool): Link
      reads this, From(d), To(d)
    {
      Link(From(d).Sending(), To(d).Receiving(), Wire(d), From(d).given, From(d).lost)
    }

    // Each direction is where its steps lead from the handshake.
    ghost predicate Follows(d: bool)
      reads this, From(d), To(d)
    {
      Enables(START, Trace(d)) && Run(START, Trace(d)) == State(d)
    }

    ghost predicate Valid()
      reads this, left, right
    {
      left != right && Follows(true) && Follows(false)
    }

    constructor ()
      ensures Valid() && fresh(left) && fresh(right) && Trace(true) == Trace(false) == []
    {
      left := new Peer();
      right := new Peer();
      toRight, toLeft, rightward, leftward := [], [], [], [];
    }

    ghost method Record(d: bool, s: Step)
      requires Enables(START, Trace(d)) && Enabled(Run(START, Trace(d)), s)
      modifies this`rightward, this`leftward
      ensures Trace(d) == old(Trace(d)) + [s] && Trace(!d) == old(Trace(!d))
      ensures Enables(START, Trace(d)) && Run(START, Trace(d)) == Next(Run(START, old(Trace(d))), s)
    {
      RunSnoc(Trace(d), s);
      if d { rightward := rightward + [s]; } else { leftward := leftward + [s]; }
    }

    /** sendPacket at one end */
    method SendPacket(d: bool, m: Message)
      requires Valid() && |m.body| < 0x8000_0000
      modifies this`rightward, this`leftward, From(d)
      ensures Valid()
      ensures Trace(d) == old(Trace(d)) + [Give(m)] && Trace(!d) == old(Trace(!d))
    {
      hide Inv, Enables, Run;
      Holds(this);
      From(d).SendPacket(m);
      Record(d, Give(m));
    }

    // The socket takes bytes of a write.
    method Push(d: bool, w: nat, n: nat)
      requires Valid() && w < |From(d).writes| && n <= |From(d).writes[w]|
      modifies this, From(d)
      ensures Valid()
      ensures Trace(d) == old(Trace(d)) + [PeerLink.Push(w, n)] && Trace(!d) == old(Trace(!d))
    {
      hide Enables, Run;
      var peer := From(d);
      var b := peer.writes[w];
      peer.writes := peer.writes[w := b[n..]];
      if d { toRight := toRight + b[..n]; } else { toLeft := toLeft + b[..n]; }
      Record(d, PeerLink.Push(w, n));
    }

    /** A write is over and handle_write called; a failed one closes both directions at this end. */
    method HandleWrite(d: bool, w: nat, error: bool)
      requires Valid() && w < |From(d).writes| && (error || From(d).writes[w] == [])
      modifies this`rightward, this`leftward, From(d)
      ensures Valid()
      ensures Trace(d) == old(Trace(d)) + [WriteDone(w, error)]
      ensures Trace(!d) == old(Trace(!d)) + if From(d).detaching then [CloseIn] else []
    {
      hide Inv, Enables, Run, WriteOut, OutInv, ReadInv, GateInv;
      Holds(this);
      From(d).HandleWrite(w, error);
      Record(d, WriteDone(w, error));
      if From(d).detaching { Record(!d, CloseIn); } else { assert Trace(!d) + [] == Trace(!d); }
    }

    // Bytes reach the outstanding read.
    method Arrive(d: bool, n: nat)
      requires Valid() && To(d).phase.Reading? && n <= |Wire(d)| && |To(d).readBuf| + n <= To(d).phase.want
      modifies this, To(d)
      ensures Valid()
      ensures Trace(d) == old(Trace(d)) + [PeerLink.Arrive(n)] && Trace(!d) == old(Trace(!d))
    {
      hide Inv, Enables, Run;
      Holds(this);
      To(d).Fill(Wire(d)[..n]);
      if d { toRight := toRight[n..]; } else { toLeft := toLeft[n..]; }
      Record(d, PeerLink.Arrive(n));
    }

    /** The outstanding read is over and handle_read_header or handle_read_body called. */
    method HandleRead(d: bool, error: bool, h: Handling)
      requires Valid() && To(d).phase.Reading? && (error || |To(d).readBuf| == To(d).phase.want)
      modifies this`rightward, this`leftward, To(d)
      ensures Valid()
      ensures Trace(d) == old(Trace(d)) + [ReadDone(error, h)]
      ensures Trace(!d) == old(Trace(!d)) + if To(d).detaching then [CloseOut] else []
    {
      hide Inv, Enables, Run, ReadIn, OutInv, ReadInv, GateInv;
      Holds(this);
      To(d).HandleRead(error, h);
      Record(d, ReadDone(error, h));
      if To(d).detaching { Record(!d, CloseOut); } else { assert Trace(!d) + [] == Trace(!d); }
    }

    /** detach at one end closes both directions there. */
    method Detach(d: bool)
      requires Valid()
      modifies this`rightward, this`leftward, From(d)
      ensures Valid() && From(d).detaching
      ensures Trace(d) == old(Trace(d)) + [CloseOut] && Trace(!d) == old(Trace(!d)) + [CloseIn]
    {
      hide Enables, Run;
      From(d).Detach();
      Record(d, CloseOut);
      Record(!d, CloseIn);
    }
  }

  // Inv of both directions, hence Valid of both peers.
  lemma {:induction false} Holds(c: Connection)
    requires c.Valid()
    ensures Inv(c.State(true)) && Inv(c.State(false)) && c.left.Valid() && c.right.Valid()
  {
    hide Inv, Enables, Run;
    StartGood();
    RunKeeps(START, c.Trace(true));
    RunKeeps(START, c.Trace(false));
    InvHalves(c.State(true));
    InvHalves(c.State(false));
  }

  lemma {:induction false} InvHalves(l: Link)
    requires Inv(l)
    ensures OutInv(l.out, l.given, l.lost) && ReadInv(l.reader) && GateInv(l.reader)
  {}

  lemma {:induction false} RunSnoc(steps: seq<Step>, s: Step)
    requires Enables(START, steps) && Enabled(Run(START, steps), s)
    ensures Enables(START, steps + [s]) && Run(START, steps + [s]) == Next(Run(START, steps), s)
  {
    RunSnocFrom(START, steps, s);
  }

  lemma {:induction false} RunSnocFrom(l: Link, steps: seq<Step>, s: Step)
    requires Enables(l, steps) && Enabled(Run(l, steps), s)
    ensures Enables(l, steps + [s]) && Run(l, steps + [s]) == Next(Run(l, steps), s)
    decreases |steps|
  {
    hide Next, Enabled;
    if steps == [] {
      assert steps + [s] == [s];
    } else {
      assert (steps + [s])[1..] == steps[1..] + [s];
      RunSnocFrom(Next(l, steps[0]), steps[1..], s);
    }
  }

  /** On every connection, in each direction: what was delivered at one end is a prefix of what was given to
      sendPacket at the other, at most one write is in flight, and messages are handled only behind a hello. */
  lemma {:induction false} ConnectionDelivers(c: Connection, d: bool)
    requires c.Valid()
    ensures var from, to := c.From(d), c.To(d);
            && |to.delivered| <= |from.given| && to.delivered == ArrivedAll(from.given[..|to.delivered|])
            && |from.writes| <= 1 && (!from.detaching && from.sendQ != [] ==> from.writes != [])
            && to.handled <= to.delivered && (to.handled != [] ==> to.handled[0].kind == HELLO)
  {
    DeliveredInOrder(c.Trace(d));
    OneWrite(c.Trace(d));
    HelloFirst(c.Trace(d));
  }
}
