/**
 * Packets as the component protocol sees them: destination addresses, the
 * host part of the element's destination, and an optional routing envelope.
 */
module Packets {
  import opened Wrappers

  /**
   * A stanza. `Routed` is a packet wrapped in one routing envelope by an
   * upstream hop; `inner` is what `unpackRouted` yields.
   */
  datatype Packet =
    | Plain(to: Option<string>, elemTo: Option<string>, elemToHost: string, xml: string)
    | Routed(to: Option<string>, elemTo: Option<string>, elemToHost: string, inner: Packet)

  /** Number of routing envelopes around the payload. */
  function EnvelopeDepth(p: Packet): (r: nat) {
    match p
    case Plain(_, _, _, _) => 0
    case Routed(_, _, _, q) => 1 + EnvelopeDepth(q)
  }

  /** `unpackRouted`: strips exactly one routing envelope. */
  function UnpackRouted(p: Packet): (q: Packet)
    requires p.Routed?
    ensures EnvelopeDepth(q) + 1 == EnvelopeDepth(p)
  {
    p.inner
  }

  /** The packet handed to the router when no processor claims it. */
  function Deliverable(p: Packet): (q: Packet)
    ensures EnvelopeDepth(q) == if p.Routed? then EnvelopeDepth(p) - 1 else EnvelopeDepth(p)
    ensures !p.Routed? ==> q == p
  {
    if p.Routed? then UnpackRouted(p) else p
  }

  /** Unpacking undoes exactly one wrapping. */
  lemma UnpackWrapped(to: Option<string>, elemTo: Option<string>, host: string, q: Packet)
    ensures Deliverable(Routed(to, elemTo, host, q)) == q
  {
  }

  /**
   * Which field `hashCodeForPacket` hashes: the element's destination when it
   * has one, otherwise the packet's destination, otherwise the superclass's
   * choice.
   */
  datatype HashSource = FromElemTo(jid: string) | FromTo(jid: string) | FromSuperclass

  function HashSourceOf(p: Packet): (r: HashSource)
    ensures r.FromElemTo? <==> p.elemTo.Some?
    ensures r.FromTo? <==> p.elemTo.None? && p.to.Some?
    ensures r.FromElemTo? ==> r.jid == p.elemTo.value
    ensures r.FromTo? ==> r.jid == p.to.value
  {
    if p.elemTo.Some? then FromElemTo(p.elemTo.value)
    else if p.to.Some? then FromTo(p.to.value)
    else FromSuperclass
  }

  /**
   * `hashCodeForPacket`, given the string hash and the superclass's hash as
   * parameters.
   */
  function HashCodeForPacket(p: Packet, hash: string -> int, superHash: Packet -> int): (r: int)
    ensures p.elemTo.Some? ==> r == hash(p.elemTo.value)
    ensures p.elemTo.None? && p.to.Some? ==> r == hash(p.to.value)
    ensures p.elemTo.None? && p.to.None? ==> r == superHash(p)
  {
    match HashSourceOf(p)
    case FromElemTo(j) => hash(j)
    case FromTo(j) => hash(j)
    case FromSuperclass => superHash(p)
  }

  /**
   * Packets for the same element destination go to the same processing
   * thread, whatever their `to` address.
   */
  lemma SameElemToSameThread(p: Packet, q: Packet, hash: string -> int, superHash: Packet -> int)
    requires p.elemTo.Some? && p.elemTo == q.elemTo
    ensures HashCodeForPacket(p, hash, superHash) == HashCodeForPacket(q, hash, superHash)
  {
  }
}
