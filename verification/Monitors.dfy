/** The two small counters that the chain consults. */
module Monitors {
  import opened Hashes
  import opened FilterHeaders
  import opened NodeState

  class FilterHeaderAgreements {
    var current: U8
    const required: U8

    constructor (required: U8)
      ensures current == 0 && this.required == required
    {
      current, this.required := 0, required;
    }

    method GotAgreement()
      requires current < 255
      modifies this
      ensures current == old(current) + 1
    {
      current := current + 1;
    }

    predicate EnoughAgree()
      reads this
    {
      required <= current
    }

    method ResetAgreements()
      modifies this
      ensures current == 0
    {
      current := 0;
    }
  }

  /** The best height that each connected peer is known to have. */
  class HeightMonitor {
    var heights: map<Peer, nat>

    constructor ()
      ensures heights == map[]
    {
      heights := map[];
    }

    method Max() returns (max: Option<nat>)
      ensures max.None? <==> heights == map[]
      ensures max.Some? ==> max.value in heights.Values && forall p | p in heights :: heights[p] <= max.value
    {
      if heights == map[] {
        return None;
      }
      var first :| first in heights;
      var best, peers := heights[first], heights.Keys;
      while peers != {}
        invariant peers <= heights.Keys && best in heights.Values
        invariant forall p | p in heights && p !in peers :: heights[p] <= best
        decreases peers
      {
        var peer :| peer in peers;
        best := if best < heights[peer] then heights[peer] else best;
        peers := peers - {peer};
      }
      max := Some(best);
    }

    method Retain(live: set<Peer>)
      modifies this
      ensures heights == map p | p in old(heights) && p in live :: old(heights)[p]
    {
      heights := map p | p in heights && p in live :: heights[p];
    }

    method Insert(peer: Peer, height: nat)
      modifies this
      ensures heights == old(heights)[peer := height]
    {
      heights := heights[peer := height];
    }

    method Increment(peer: Peer)
      modifies this
      ensures heights == Increments(old(heights), peer, 1)
    {
      if peer in heights {
        heights := heights[peer := SaturatingSucc(heights[peer])];
      }
    }
  }

  lemma {:induction false} IncrementsSplit(heights: map<Peer, nat>, peer: Peer, times: nat)
    ensures Increments(heights, peer, times + 1) == Increments(Increments(heights, peer, 1), peer, times)
    ensures Increments(heights, peer, times + 1) == Increments(Increments(heights, peer, times), peer, 1)
    decreases times
  {
    if 0 < times && peer in heights {
      IncrementsSplit(heights[peer := SaturatingSucc(heights[peer])], peer, times - 1);
    }
  }
}
