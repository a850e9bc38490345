/** Engine counters. Specifications count without bound; the engine's fields hold the counts
    modulo 2^64. */
module Statistics {
  import opened Bits

  datatype Stats = Stats(
    eventsIn: nat, eventsOut: nat, eventsDropped: nat,
    packetsSent: nat, sendErrors: nat, encodeErrors: nat, ingressErrors: nat,
    packetsReceived: nat, malformedPackets: nat, duplicateOrOld: nat, wrongSession: nat, receiveErrors: nat,
    gapsDetected: nat, packetsMissed: nat, egressFull: nat, egressErrors: nat)

  const NO_STATS := Stats(0, 0, 0, 0, 0, 0, 0, 0, 0, 0, 0, 0, 0, 0, 0, 0)

  function Low64(x: nat): u64 {
    x % TWO_TO_64
  }

  /** The counters as the engine's 64-bit fields hold them. */
  function Wrap(s: Stats): Stats {
    Stats(Low64(s.eventsIn), Low64(s.eventsOut), Low64(s.eventsDropped),
          Low64(s.packetsSent), Low64(s.sendErrors), Low64(s.encodeErrors), Low64(s.ingressErrors),
          Low64(s.packetsReceived), Low64(s.malformedPackets), Low64(s.duplicateOrOld), Low64(s.wrongSession),
          Low64(s.receiveErrors), Low64(s.gapsDetected), Low64(s.packetsMissed),
          Low64(s.egressFull), Low64(s.egressErrors))
  }

  lemma WrapNothing()
    ensures Wrap(NO_STATS) == NO_STATS
  {
  }

  /** A 64-bit counter that adds keeps step with the unbounded count. */
  function Bump(x: nat, n: nat): (r: u64)
    ensures forall exact: nat :: x == Low64(exact) ==> r == Low64(exact + n)
  {
    forall exact: nat | x == Low64(exact) ensures (x + n) % TWO_TO_64 == Low64(exact + n) {
      var q := exact / TWO_TO_64;
      assert exact == q * TWO_TO_64 + x;
      assert exact + n == q * TWO_TO_64 + (x + n);
      ShiftMod(x + n, q);
    }
    (x + n) % TWO_TO_64
  }

  lemma ShiftMod(x: nat, q: nat)
    ensures (q * TWO_TO_64 + x) % TWO_TO_64 == x % TWO_TO_64
  {
  }
}
