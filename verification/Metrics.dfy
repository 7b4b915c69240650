/** The service's counters: requests by result, denials by reason, and the number of observed latencies. */
module Metrics {

  datatype Reason = NoToken | VerificationFailed | PolicyNoMatch | SigningFailed

  datatype Counters = Counters(allowed: nat, denied: nat, denials: map<Reason, nat>, observed: nat)

  const ZERO := Counters(0, 0, map[], 0)

  function DenialsFor(c: Counters, reason: Reason): nat {
    if reason in c.denials then c.denials[reason] else 0
  }

  function TotalDenials(c: Counters): nat {
    DenialsFor(c, NoToken) + DenialsFor(c, VerificationFailed)
    + DenialsFor(c, PolicyNoMatch) + DenialsFor(c, SigningFailed)
  }

  // The increments, one at a time, as concurrent calls interleave them.

  function IncAllowed(c: Counters): Counters {
    c.(allowed := c.allowed + 1)
  }

  function IncDenied(c: Counters): Counters {
    c.(denied := c.denied + 1)
  }

  function IncReason(c: Counters, reason: Reason): Counters {
    c.(denials := c.denials[reason := DenialsFor(c, reason) + 1])
  }

  function Observe(c: Counters): Counters {
    c.(observed := c.observed + 1)
  }

  class Metrics {
    var allowed: nat
    var denied: nat
    var denials: map<Reason, nat>
    var observed: nat

    ghost function State(): Counters
      reads this
    {
      Counters(allowed, denied, denials, observed)
    }

    constructor ()
      ensures State() == ZERO
    {
      allowed, denied, denials, observed := 0, 0, map[], 0;
    }

    method RecordAllowed()
      modifies this
      ensures State() == old(State()).(allowed := old(allowed) + 1, observed := old(observed) + 1)
    {
      allowed := allowed + 1;
      observed := observed + 1;
    }

    method RecordDenied(reason: Reason)
      modifies this
      ensures State() == old(State()).(
                denied := old(denied) + 1,
                denials := old(denials)[reason := DenialsFor(old(State()), reason) + 1],
                observed := old(observed) + 1)
      ensures TotalDenials(State()) == TotalDenials(old(State())) + 1
    {
      denied := denied + 1;
      denials := denials[reason := (if reason in denials then denials[reason] else 0) + 1];
      observed := observed + 1;
    }
  }
}
