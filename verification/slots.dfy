/**
  The request-slot allocator of the load engine (`getNextRequestSlot` in
  packages/backend/src/engine/orchestrator.ts): a counter of issued requests
  that hands out 1, 2, ... while fewer than `totalRequests` have been issued,
  and nothing afterwards. JavaScript runs each call to completion, so every
  claim is one atomic step however many workers share the counter.
 */
module Slots {
  import opened Types

  /**
    How many slots a run hands out: the whole numbers n >= 0 with n < total,
    that is `total` itself when it is a whole number.
   */
  function SlotCount(total: real): (c: nat)
    ensures total <= c as real
    ensures c == 0 || (c - 1) as real < total
  {
    if total <= 0.0 then 0 else Ceil(total)
  }

  lemma SlotCountOfWhole(t: nat)
    ensures SlotCount(t as real) == t
  {
  }

  /** One claim: the new issued count and the slot, or no slot once the total is reached. */
  function NextSlot(issued: nat, total: real): (r: (nat, Option<nat>))
    ensures issued < SlotCount(total) ==> r == (issued + 1, Some(issued + 1))
    ensures issued >= SlotCount(total) ==> r == (issued, None)
  {
    if issued as real >= total then (issued, None)
    else (issued + 1, Some(issued + 1))
  }

  /** The answers to `n` successive claims starting from `issued`. */
  function Claims(issued: nat, total: real, n: nat): (r: seq<Option<nat>>)
    ensures |r| == n
    decreases n
  {
    if n == 0 then []
    else
      var (next, slot) := NextSlot(issued, total);
      [slot] + Claims(next, total, n - 1)
  }

  /** The issued count after `n` successive claims starting from `issued`. */
  function IssuedAfter(issued: nat, total: real, n: nat): nat
    decreases n
  {
    if n == 0 then issued else IssuedAfter(NextSlot(issued, total).0, total, n - 1)
  }

  /**
    The k-th claim answers slot issued+k+1 while slots remain and nothing after,
    and the counter stops at the slot count.
   */
  lemma {:induction false} ClaimsEnumerate(issued: nat, total: real, n: nat)
    requires issued <= SlotCount(total)
    ensures forall k :: 0 <= k < n ==>
      Claims(issued, total, n)[k] == (if issued + k < SlotCount(total) then Some(issued + k + 1) else None)
    ensures IssuedAfter(issued, total, n) == (if issued + n < SlotCount(total) then issued + n else SlotCount(total))
    decreases n
  {
    if n > 0 {
      var (next, slot) := NextSlot(issued, total);
      ClaimsEnumerate(next, total, n - 1);
      var r := Claims(issued, total, n);
      assert r == [slot] + Claims(next, total, n - 1);
      forall k | 0 <= k < n
        ensures r[k] == (if issued + k < SlotCount(total) then Some(issued + k + 1) else None)
      {
        if k > 0 {
          assert r[k] == Claims(next, total, n - 1)[k - 1];
        }
      }
    }
  }

  /**
    From a fresh counter, successive claims answer 1, 2, ..., SlotCount(total)
    in order and nothing ever after: no slot is repeated or skipped.
   */
  lemma FreshClaims(total: real, n: nat)
    ensures forall k :: 0 <= k < n ==>
      Claims(0, total, n)[k] == (if k < SlotCount(total) then Some(k + 1) else None)
    ensures forall j, k :: 0 <= j < k < n && Claims(0, total, n)[j].Some? && Claims(0, total, n)[k].Some? ==>
      Claims(0, total, n)[j].value < Claims(0, total, n)[k].value
    ensures IssuedAfter(0, total, n) <= SlotCount(total)
  {
    ClaimsEnumerate(0, total, n);
  }
}
