/**
 * The processor chain: the fixed processor order, how one inbound packet
 * runs through every processor, what a drained input queue produces, and
 * the stream features the chain advertises.
 *
 * Processors are given as an oracle `process(proc, packet)` that answers
 * whether the processor claimed the packet and which packets it left in the
 * results queue.
 */
module Pipeline {
  import opened Wrappers
  import opened Packets

  datatype ExtProcessor = Handshake | StreamFeatures | StartTls | Sasl | Bind

  /** The order `setProperties` registers the processors in. */
  const DefaultProcessors: seq<ExtProcessor> := [Handshake, StreamFeatures, StartTls, Sasl, Bind]

  /** What one `process` call answers and leaves in the results queue. */
  datatype Claim = Claim(claimed: bool, out: seq<Packet>)

  /** One packet through the chain: claims OR-ed, outputs written in processor order. */
  function Dispatch(procs: seq<ExtProcessor>, p: Packet, process: (ExtProcessor, Packet) -> Claim): (r: Claim)
    decreases |procs|
  {
    if procs == [] then Claim(false, [])
    else
      var d := Dispatch(procs[..|procs| - 1], p, process);
      var c := process(procs[|procs| - 1], p);
      Claim(d.claimed || c.claimed, d.out + c.out)
  }

  /** The chain claims a packet iff at least one processor does. */
  lemma {:induction false} DispatchClaimedIff(procs: seq<ExtProcessor>, p: Packet, process: (ExtProcessor, Packet) -> Claim)
    ensures Dispatch(procs, p, process).claimed <==> exists k :: 0 <= k < |procs| && process(procs[k], p).claimed
    decreases |procs|
  {
    if procs != [] {
      var procs0 := procs[..|procs| - 1];
      DispatchClaimedIff(procs0, p, process);
      if Dispatch(procs0, p, process).claimed {
        var k :| 0 <= k < |procs0| && process(procs0[k], p).claimed;
        assert procs[k] == procs0[k];
      }
      if exists k :: 0 <= k < |procs| && process(procs[k], p).claimed {
        var k :| 0 <= k < |procs| && process(procs[k], p).claimed;
        if k < |procs0| {
          assert procs0[k] == procs[k];
        }
      }
    }
  }

  /** Running one more processor after a chain. */
  lemma DispatchSnoc(procs: seq<ExtProcessor>, x: ExtProcessor, p: Packet, process: (ExtProcessor, Packet) -> Claim)
    ensures Dispatch(procs + [x], p, process)
         == Claim(Dispatch(procs, p, process).claimed || process(x, p).claimed,
                  Dispatch(procs, p, process).out + process(x, p).out)
  {
    assert (procs + [x])[..|procs|] == procs;
  }

  /**
   * With the configured chain, every processor runs once per packet in the
   * fixed order, whichever claims it: the socket receives their outputs in
   * that order.
   */
  lemma DefaultChainRunsEveryProcessorInOrder(p: Packet, process: (ExtProcessor, Packet) -> Claim)
    ensures Dispatch(DefaultProcessors, p, process).out
         == process(Handshake, p).out + process(StreamFeatures, p).out + process(StartTls, p).out
          + process(Sasl, p).out + process(Bind, p).out
    ensures Dispatch(DefaultProcessors, p, process).claimed
        <==> (process(Handshake, p).claimed || process(StreamFeatures, p).claimed || process(StartTls, p).claimed
              || process(Sasl, p).claimed || process(Bind, p).claimed)
  {
    DispatchSnoc([], Handshake, p, process);
    DispatchSnoc([Handshake], StreamFeatures, p, process);
    DispatchSnoc([Handshake, StreamFeatures], StartTls, p, process);
    DispatchSnoc([Handshake, StreamFeatures, StartTls], Sasl, p, process);
    DispatchSnoc([Handshake, StreamFeatures, StartTls, Sasl], Bind, p, process);
    assert [] + [Handshake] == [Handshake];
    assert [Handshake] + [StreamFeatures] == [Handshake, StreamFeatures];
    assert [Handshake, StreamFeatures] + [StartTls] == [Handshake, StreamFeatures, StartTls];
    assert [Handshake, StreamFeatures, StartTls] + [Sasl] == [Handshake, StreamFeatures, StartTls, Sasl];
    assert [Handshake, StreamFeatures, StartTls, Sasl] + [Bind] == DefaultProcessors;
  }

  /** What goes to the router for one packet: nothing if claimed, else the unpacked packet. */
  function Forwarded(procs: seq<ExtProcessor>, p: Packet, process: (ExtProcessor, Packet) -> Claim): (r: seq<Packet>) {
    if Dispatch(procs, p, process).claimed then [] else [Deliverable(p)]
  }

  /** A packet reaches the router iff no processor claims it, and then with one envelope removed. */
  lemma ForwardedIffUnclaimed(procs: seq<ExtProcessor>, p: Packet, process: (ExtProcessor, Packet) -> Claim)
    ensures Forwarded(procs, p, process) == [] <==> exists k :: 0 <= k < |procs| && process(procs[k], p).claimed
    ensures Forwarded(procs, p, process) != [] ==>
      Forwarded(procs, p, process) == [Deliverable(p)]
      && EnvelopeDepth(Deliverable(p)) == (if p.Routed? then EnvelopeDepth(p) - 1 else EnvelopeDepth(p))
  {
    DispatchClaimedIff(procs, p, process);
  }

  /** The socket output and the router output of draining a queue. */
  datatype Drained = Drained(written: seq<Packet>, routed: seq<Packet>)

  /** `processSocketData` on a queue holding `ps`, packets taken from the front. */
  function Drain(procs: seq<ExtProcessor>, ps: seq<Packet>, process: (ExtProcessor, Packet) -> Claim): (r: Drained)
    decreases |ps|
  {
    if ps == [] then Drained([], [])
    else
      var d := Drain(procs, ps[..|ps| - 1], process);
      var p := ps[|ps| - 1];
      Drained(d.written + Dispatch(procs, p, process).out, d.routed + Forwarded(procs, p, process))
  }

  /** Draining one packet more of a queue appends its processors' output and what it forwards. */
  lemma DrainPrefixStep(procs: seq<ExtProcessor>, ps: seq<Packet>, i: nat, process: (ExtProcessor, Packet) -> Claim)
    requires i < |ps|
    ensures Drain(procs, ps[..i + 1], process)
         == Drained(Drain(procs, ps[..i], process).written + Dispatch(procs, ps[i], process).out,
                    Drain(procs, ps[..i], process).routed + Forwarded(procs, ps[i], process))
  {
    assert ps[..i + 1][..i] == ps[..i];
  }

  /**
   * Draining routes nothing when every packet is claimed, routes every
   * packet unpacked and in order when none is, and never routes more
   * packets than it drained.
   */
  lemma {:induction false} DrainRouting(procs: seq<ExtProcessor>, ps: seq<Packet>, process: (ExtProcessor, Packet) -> Claim)
    ensures |Drain(procs, ps, process).routed| <= |ps|
    ensures (forall i :: 0 <= i < |ps| ==> Dispatch(procs, ps[i], process).claimed) ==> Drain(procs, ps, process).routed == []
    ensures (forall i :: 0 <= i < |ps| ==> !Dispatch(procs, ps[i], process).claimed) ==>
      |Drain(procs, ps, process).routed| == |ps|
      && forall i :: 0 <= i < |ps| ==> Drain(procs, ps, process).routed[i] == Deliverable(ps[i])
    decreases |ps|
  {
    if ps != [] {
      var ps0 := ps[..|ps| - 1];
      DrainRouting(procs, ps0, process);
      assert forall i :: 0 <= i < |ps0| ==> ps0[i] == ps[i];
    }
  }

  /** A feature element advertised in `<stream:features/>`. */
  datatype Element = Element(name: string, xmlns: string)

  /** `getStreamFeatures`: the non-null feature lists of the processors, in order. */
  function FeaturesOf(procs: seq<ExtProcessor>, features: ExtProcessor -> Option<seq<Element>>): (r: seq<Element>)
    decreases |procs|
  {
    if procs == [] then []
    else FeaturesOf(procs[..|procs| - 1], features) + features(procs[|procs| - 1]).GetOr([])
  }

  /** An element is advertised iff some processor of the chain offers it. */
  lemma {:induction false} FeaturesOfMembership(procs: seq<ExtProcessor>, features: ExtProcessor -> Option<seq<Element>>, e: Element)
    ensures e in FeaturesOf(procs, features)
        <==> exists k :: 0 <= k < |procs| && features(procs[k]).Some? && e in features(procs[k]).value
    decreases |procs|
  {
    if procs != [] {
      var procs0 := procs[..|procs| - 1];
      FeaturesOfMembership(procs0, features, e);
      if e in FeaturesOf(procs0, features) {
        var k :| 0 <= k < |procs0| && features(procs0[k]).Some? && e in features(procs0[k]).value;
        assert procs[k] == procs0[k];
      }
      if exists k :: 0 <= k < |procs| && features(procs[k]).Some? && e in features(procs[k]).value {
        var k :| 0 <= k < |procs| && features(procs[k]).Some? && e in features(procs[k]).value;
        if k < |procs0| {
          assert procs0[k] == procs[k];
        }
      }
    }
  }

  /** Asking one more processor for its features. */
  lemma FeaturesOfSnoc(procs: seq<ExtProcessor>, x: ExtProcessor, features: ExtProcessor -> Option<seq<Element>>)
    ensures FeaturesOf(procs + [x], features) == FeaturesOf(procs, features) + features(x).GetOr([])
  {
    assert (procs + [x])[..|procs|] == procs;
  }

  /** With the configured chain the features come in the fixed processor order. */
  lemma DefaultFeaturesOrder(features: ExtProcessor -> Option<seq<Element>>)
    ensures FeaturesOf(DefaultProcessors, features)
         == features(Handshake).GetOr([]) + features(StreamFeatures).GetOr([]) + features(StartTls).GetOr([])
          + features(Sasl).GetOr([]) + features(Bind).GetOr([])
  {
    FeaturesOfSnoc([], Handshake, features);
    FeaturesOfSnoc([Handshake], StreamFeatures, features);
    FeaturesOfSnoc([Handshake, StreamFeatures], StartTls, features);
    FeaturesOfSnoc([Handshake, StreamFeatures, StartTls], Sasl, features);
    FeaturesOfSnoc([Handshake, StreamFeatures, StartTls, Sasl], Bind, features);
    assert [] + [Handshake] == [Handshake];
    assert [Handshake] + [StreamFeatures] == [Handshake, StreamFeatures];
    assert [Handshake, StreamFeatures] + [StartTls] == [Handshake, StreamFeatures, StartTls];
    assert [Handshake, StreamFeatures, StartTls] + [Sasl] == [Handshake, StreamFeatures, StartTls, Sasl];
    assert [Handshake, StreamFeatures, StartTls, Sasl] + [Bind] == DefaultProcessors;
  }
}
