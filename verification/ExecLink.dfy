/** One direction of the byte path between the executor and the spawn proxy: the transport on one side of the
    bridge, the bridge's copy buffer, and the connection on its other side (internal/adapter/execbridge.go).
    Both connections buffer a bounded number of bytes; a writer waits for room.
    The bridge re-chunks as it likes; a cut ends the path for good and drops what had not come through. */
module ExecLink {
  import opened Bytes

  datatype Link = Link(
    arrived: bytes, // forwarded by the bridge, not yet read by the receiver
    held: bytes,    // in the bridge's copy buffer
    wire: bytes,    // written by the sender, not yet read by the bridge
    lost: bytes,    // swallowed by the cut, and everything written after it
    cut: bool,
    window: nat)    // how much each side of the bridge buffers before a write to it waits
  {
    /** Every byte sent and not yet received, in order. */
    function InFlight(): bytes { arrived + held + wire + lost }

    predicate Valid() {
      && window > 0
      && (cut ==> held == [] && wire == [])
      && (!cut ==> lost == [])
    }

    /** A write of `k` bytes goes through: there is room for them, or the path is cut and they are lost. */
    predicate Takes(k: nat) { cut || |wire| + k <= window }

    /** The bridge's own write of `k` bytes goes through. */
    predicate Forwards(k: nat) { !cut && |arrived| + k <= window }

    predicate Drained() { arrived == [] && held == [] && wire == [] }

    function Send(d: bytes): Link {
      if cut then this.(lost := lost + d) else this.(wire := wire + d)
    }

    function BridgeIn(k: nat): Link
      requires k <= |wire|
    {
      this.(held := wire[..k], wire := wire[k..])
    }

    function BridgeOut(k: nat): Link
      requires k <= |held|
    {
      this.(arrived := arrived + held[..k], held := held[k..])
    }

    function Cut(): Link { Link(arrived, [], [], held + wire + lost, true, window) }

    function Receive(k: nat): Link
      requires k <= |arrived|
    {
      this.(arrived := arrived[k..])
    }
  }

  function NewLink(window: nat): Link { Link([], [], [], [], false, window) }

  /** The bridge neither creates, nor drops, nor reorders a byte: what goes into its buffer, */
  lemma BridgeInConserves(l: Link, k: nat)
    requires l.Valid() && !l.cut && l.held == [] && k <= |l.wire|
    ensures l.BridgeIn(k).Valid() && l.BridgeIn(k).InFlight() == l.InFlight()
  {
    var a, b := l.wire[..k], l.wire[k..];
    assert a + b == l.wire && l.arrived + [] == l.arrived;
    assert l.arrived + a + b == l.arrived + (a + b);
  }

  /** comes out of it again. */
  lemma BridgeOutConserves(l: Link, k: nat)
    requires l.Valid() && !l.cut && k <= |l.held|
    ensures l.BridgeOut(k).Valid() && l.BridgeOut(k).InFlight() == l.InFlight()
  {
    var a, b := l.held[..k], l.held[k..];
    assert a + b == l.held;
    assert l.arrived + a + b == l.arrived + (a + b);
  }

  /** A cut only stops bytes from arriving. */
  lemma CutConserves(l: Link)
    requires l.Valid()
    ensures l.Cut().Valid() && l.Cut().InFlight() == l.InFlight() && l.Cut().arrived == l.arrived
  {
    assert l.Cut().InFlight() == l.arrived + l.held + l.wire + l.lost;
  }

  lemma ReceiveTakesFront(l: Link, k: nat)
    requires l.Valid() && k <= |l.arrived|
    ensures l.Receive(k).Valid() && l.arrived[..k] + l.Receive(k).InFlight() == l.InFlight()
  {
    assert l.arrived[..k] + l.arrived[k..] == l.arrived;
    assert l.arrived[..k] + (l.arrived[k..] + l.held + l.wire + l.lost)
        == (l.arrived[..k] + l.arrived[k..]) + l.held + l.wire + l.lost;
  }

  lemma SendAppends(l: Link, d: bytes)
    requires l.Valid()
    ensures l.Send(d).Valid() && l.Send(d).InFlight() == l.InFlight() + d
  {
    assert l.cut || l.lost == [];
  }
}
