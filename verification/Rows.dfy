/** The scheduling columns of a message row and the UPDATE statements of
    crates/nostr-q-store/src/store.rs as functions on them. */
module Rows {
  import opened Base

  datatype Status = Pending | Claimed | Acked | Dead | Expired

  datatype Row = Row(status: Status, attempts: nat, floor: nat, lease: Option<int>,
                     visibleAt: int, expiresAt: Option<int>)

  // ---- UPDATE statements -------------------------------------------------

  function MarkClaimed(r: Row, leaseExp: int, attempt: nat): Row {
    r.(status := Claimed, lease := Some(leaseExp), attempts := Max(r.attempts, attempt))
  }

  function MarkAcked(r: Row): Row {
    r.(status := Acked, lease := None)
  }

  function MarkPending(r: Row, visibleAt: int): Row {
    r.(status := Pending, lease := None, visibleAt := visibleAt)
  }

  function IncrAttempts(r: Row): Row {
    r.(attempts := r.attempts + 1)
  }

  function MarkDead(r: Row): Row {
    r.(status := Dead, lease := None)
  }

  function MarkDeadAt(r: Row, attempt: nat): Row {
    r.(status := Dead, lease := None, attempts := Max(r.attempts, attempt))
  }

  function Retried(r: Row): Row {
    r.(status := Pending, floor := r.attempts, visibleAt := 0, lease := None)
  }

  // ---- Queries -----------------------------------------------------------

  predicate PastExpiry(r: Row, now: int) {
    r.expiresAt.Some? && r.expiresAt.value <= now
  }

  predicate Claimable(r: Row, now: int) {
    && ( || (r.status == Pending && r.visibleAt <= now)
         || (r.status == Claimed && r.lease.Some? && r.lease.value <= now))
    && !PastExpiry(r, now)
  }

  predicate Due(r: Row, now: int) {
    (r.status == Pending || r.status == Claimed) && PastExpiry(r, now)
  }

  /** One row under `expire_due`. */
  function Swept(r: Row, now: int): Row {
    if Due(r, now) then r.(status := Expired, lease := None) else r
  }

  // ---- Sweeping and polling ---------------------------------------------

  /** An unexpired row can be selected exactly from the end of its lease on when it is claimed, exactly
      from its visible time on when it is pending, and never when it is acked, dead or expired; no row
      can be selected from its expiry on. */
  lemma ClaimableExactly(r: Row, now: int)
    ensures r.status == Claimed && r.lease.Some? && (r.expiresAt.Some? ==> now < r.expiresAt.value) ==>
              (Claimable(r, now) <==> now >= r.lease.value)
    ensures r.status == Pending && (r.expiresAt.Some? ==> now < r.expiresAt.value) ==>
              (Claimable(r, now) <==> now >= r.visibleAt)
    ensures (r.status == Claimed && r.lease.None?) || r.status in {Acked, Dead, Expired} ==> !Claimable(r, now)
    ensures r.expiresAt.Some? && now >= r.expiresAt.value ==> !Claimable(r, now)
  {
  }

  /** However many sweeps run beforehand, a poll sees the same rows as claimable as it would have
      without them: `claimable` already refuses every row a sweep would expire. */
  lemma SweepNeverChangesClaimable(r: Row, sweepAt: int, now: int)
    requires sweepAt <= now
    ensures Claimable(Swept(r, sweepAt), now) <==> Claimable(r, now)
    ensures Due(Swept(r, sweepAt), now) ==> Due(r, now)
    ensures Swept(Swept(r, sweepAt), now) == Swept(r, now)
  {
    if Due(r, sweepAt) {
      assert PastExpiry(r, now);
    }
  }
}
