/** The anti-replay filter of wireguard-go/replay/replay.go, the sliding window of section 2 of RFC 6479. */
module Replay {

  const BLOCK_BITS := 64
  const RING_BLOCKS := 128
  const WINDOW_SIZE := (RING_BLOCKS - 1) * BLOCK_BITS

  /** A block, by the numbers of its bits that are set. */
  type Block = set<nat>

  class Filter {
    var last: nat
    const ring: array<Block>
    /** The counters accepted since the last reset. */
    ghost var accepted: set<nat>

    constructor ()
      ensures Valid() && fresh(ring) && accepted == {} && last == 0
    {
      last := 0;
      ring := new Block[RING_BLOCKS](_ => {});
      accepted := {};
    }

    /** The bit of a counter says whether it was accepted. */
    ghost predicate Tells(c: nat)
      requires ring.Length == RING_BLOCKS
      reads this`accepted, ring
    {
      c % BLOCK_BITS in ring[(c / BLOCK_BITS) % RING_BLOCKS] <==> c in accepted
    }

    /** The ring holds the last 128 blocks, and nothing beyond the last counter was accepted. */
    ghost predicate Valid()
      reads this, ring
    {
      && ring.Length == RING_BLOCKS
      && (forall c :: c in accepted ==> c <= last)
      && (forall c: nat {:trigger Tells(c)} :: InRing(c, last) ==> Tells(c))
    }

    /** Clearing one block is enough: the others are outside the window until it moves over them. */
    method Reset()
      requires ring.Length == RING_BLOCKS
      modifies this, ring
      ensures Valid() && accepted == {} && last == 0
    {
      last := 0;
      ring[0] := {};
      accepted := {};
    }

    /** A counter is accepted once, if it is below the limit and not too far behind. */
    method ValidateCounter(counter: nat, limit: nat) returns (ok: bool)
      requires Valid()
      modifies this, ring
      ensures Valid()
      ensures ok <==>
        counter < limit && counter !in old(accepted) && (counter > old(last) || old(last) - counter <= WINDOW_SIZE)
      ensures accepted == if ok then old(accepted) + {counter} else old(accepted)
      ensures last == if ok && counter > old(last) then counter else old(last)
    {
      if counter >= limit {
        return false;
      }
      if counter > last {
        Forward(counter);
      } else if last - counter > WINDOW_SIZE {
        return false;
      }
      ok := CheckAndSet(counter);
    }

    /** Lines 43-51: the window moves forward over blocks that are cleared. */
    method Forward(counter: nat)
      requires Valid() && counter > last
      modifies this`last, ring
      ensures Valid() && last == counter
    {
      var indexBlock, current := counter / BLOCK_BITS, last / BLOCK_BITS;
      var diff := indexBlock - current;
      if diff > RING_BLOCKS {
        diff := RING_BLOCKS;
      }
      for i := current + 1 to current + diff + 1
        invariant last == old(last) && accepted == old(accepted)
        invariant forall j :: current + 1 <= j < i ==> ring[j % RING_BLOCKS] == {}
        invariant forall s ::
          0 <= s < RING_BLOCKS && (forall j :: current + 1 <= j < i ==> j % RING_BLOCKS != s) ==>
            ring[s] == old(ring[s])
      {
        ring[i % RING_BLOCKS] := {};
      }
      ghost var end := current + diff;
      forall c: nat | InRing(c, counter)
        ensures Tells(c)
      {
        var b := c / BLOCK_BITS;
        if b > current {
          var j := SameSlot(b, current, indexBlock, end);
          assert ring[j % RING_BLOCKS] == {} && c > last;
        } else {
          assert old(InRing(c, last) && Tells(c));
          forall j | current + 1 <= j < end + 1
            ensures j % RING_BLOCKS != b % RING_BLOCKS
          {
            OtherSlot(j, b);
          }
        }
      }
      last := counter;
    }

    /** Lines 56-61. */
    method CheckAndSet(counter: nat) returns (ok: bool)
      requires Valid() && counter <= last && last - counter <= WINDOW_SIZE
      modifies this`accepted, ring
      ensures Valid() && (ok <==> counter !in old(accepted)) && accepted == old(accepted) + {counter}
    {
      assert InRing(counter, last) && Tells(counter);
      var indexBlock, indexBit := (counter / BLOCK_BITS) % RING_BLOCKS, counter % BLOCK_BITS;
      var was := ring[indexBlock];
      ring[indexBlock] := was + {indexBit};
      ok := was != was + {indexBit};
      accepted := accepted + {counter};
      forall c: nat | InRing(c, last)
        ensures Tells(c)
      {
        assert old(Tells(c));
        if (c / BLOCK_BITS) % RING_BLOCKS == indexBlock && c % BLOCK_BITS == indexBit {
          SlotTells(c, counter, last);
        }
      }
    }
  }

  /** The block of `c` is among the 128 that end with the block of `last`. */
  ghost predicate InRing(c: nat, last: nat) {
    c / BLOCK_BITS <= last / BLOCK_BITS < c / BLOCK_BITS + RING_BLOCKS
  }

  /** Two blocks less than a ring apart are in different slots. */
  lemma OtherSlot(a: nat, b: nat)
    requires b < a < b + RING_BLOCKS
    ensures a % RING_BLOCKS != b % RING_BLOCKS
  {
  }

  /** A block that enters the window shares its slot with a block that was cleared. */
  lemma SameSlot(b: nat, current: nat, last: nat, end: nat) returns (j: nat)
    requires current < b <= last < b + RING_BLOCKS
      && end == if last - current > RING_BLOCKS then current + RING_BLOCKS else last
    ensures current + 1 <= j < end + 1 && j % RING_BLOCKS == b % RING_BLOCKS
  {
    j := if last - current > RING_BLOCKS then current + 1 + (b - current - 1) % RING_BLOCKS else b;
  }

  /** Within the window, a slot and a bit determine the counter. */
  lemma SlotTells(c: nat, d: nat, last: nat)
    requires InRing(c, last) && InRing(d, last)
    requires (c / BLOCK_BITS) % RING_BLOCKS == (d / BLOCK_BITS) % RING_BLOCKS && c % BLOCK_BITS == d % BLOCK_BITS
    ensures c == d
  {
    var a, b := c / BLOCK_BITS, d / BLOCK_BITS;
    if a < b {
      OtherSlot(b, a);
    } else if b < a {
      OtherSlot(a, b);
    }
    assert c == a * BLOCK_BITS + c % BLOCK_BITS && d == b * BLOCK_BITS + d % BLOCK_BITS;
  }
}
