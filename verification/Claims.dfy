/** Claim conflict resolution: crates/nostr-q-core/src/protocol.rs, `claim_winner`. */
module Claims {
  import opened Base

  /** The parsed form of a claim event. Event ids are fixed-width hex strings, so their
      lexicographic order is the numeric order used here. */
  datatype ClaimInfo = ClaimInfo(claimer: nat, id: nat, createdAt: int, leaseExp: int, attempt: nat)

  /** A claim takes part in the contest when its lease is unexpired and no nack has superseded it. */
  predicate Live(c: ClaimInfo, minAttempt: nat, now: int) {
    c.leaseExp > now && c.attempt >= minAttempt
  }

  /** The tie-break order on (created_at, id). */
  predicate KeyLess(a: ClaimInfo, b: ClaimInfo) {
    a.createdAt < b.createdAt || (a.createdAt == b.createdAt && a.id < b.id)
  }

  /** First live claim with the least key, as the filter and `min_by_key` chain computes it. */
  function ClaimWinner(claims: seq<ClaimInfo>, minAttempt: nat, now: int): Option<ClaimInfo> {
    if claims == [] then None
    else
      var last := claims[|claims| - 1];
      var best := ClaimWinner(claims[..|claims| - 1], minAttempt, now);
      if Live(last, minAttempt, now) && (best.None? || KeyLess(last, best.value)) then Some(last) else best
  }

  /** No two different claims carry the same event id. */
  ghost predicate DistinctIds(claims: seq<ClaimInfo>) {
    forall c, d :: c in claims && d in claims && c.id == d.id ==> c == d
  }

  /** What `claim_winner` promises: nobody wins exactly when every claim is expired or superseded, and
      otherwise the winner is a claim that is neither, and no other such claim was made before it, ties
      within a second going to the smaller event id. */
  lemma {:induction false} WinnerIsLeastLive(claims: seq<ClaimInfo>, minAttempt: nat, now: int)
    ensures var w := ClaimWinner(claims, minAttempt, now);
            && (w.None? <==> forall c :: c in claims ==> c.leaseExp <= now || c.attempt < minAttempt)
            && (w.Some? ==>
                  && w.value in claims && w.value.leaseExp > now && w.value.attempt >= minAttempt
                  && forall c :: c in claims && c.leaseExp > now && c.attempt >= minAttempt ==>
                       w.value.createdAt < c.createdAt || (w.value.createdAt == c.createdAt && w.value.id <= c.id))
  {
    if claims == [] {
    } else {
      var init, last := claims[..|claims| - 1], claims[|claims| - 1];
      assert claims == init + [last];
      WinnerIsLeastLive(init, minAttempt, now);
    }
  }

  /** The winner is characterised by being live and least, given distinct ids. */
  lemma LeastLiveIsWinner(claims: seq<ClaimInfo>, minAttempt: nat, now: int, w: ClaimInfo)
    requires DistinctIds(claims)
    ensures ClaimWinner(claims, minAttempt, now) == Some(w)
       <==> && w in claims && w.leaseExp > now && w.attempt >= minAttempt
            && forall c :: c in claims && c.leaseExp > now && c.attempt >= minAttempt ==>
                 w.createdAt < c.createdAt || (w.createdAt == c.createdAt && w.id <= c.id)
  {
    WinnerIsLeastLive(claims, minAttempt, now);
  }

  /** Every observer of the same set of claim events names the same winner: neither the order in
      which a relay lists them nor repeated deliveries matter. */
  lemma WinnerIgnoresOrderAndDuplicates(xs: seq<ClaimInfo>, ys: seq<ClaimInfo>, minAttempt: nat, now: int)
    requires DistinctIds(xs)
    requires forall c :: c in xs <==> c in ys
    ensures ClaimWinner(xs, minAttempt, now) == ClaimWinner(ys, minAttempt, now)
  {
    WinnerIsLeastLive(xs, minAttempt, now);
    WinnerIsLeastLive(ys, minAttempt, now);
  }

  /** A winner keeps winning as time, the nack generation and the claim set grow, exactly until it
      expires, a higher nack supersedes it, or a live claim with a smaller key is added. */
  lemma WinnerIsStable(claims: seq<ClaimInfo>, minAttempt: nat, now: int,
                       more: seq<ClaimInfo>, minAttempt': nat, now': int, w: ClaimInfo)
    requires DistinctIds(claims + more)
    requires ClaimWinner(claims, minAttempt, now) == Some(w)
    requires minAttempt <= minAttempt' && now <= now'
    ensures ClaimWinner(claims + more, minAttempt', now') == Some(w)
       <==> && w.leaseExp > now' && w.attempt >= minAttempt'
            && forall c :: c in more && c.leaseExp > now' && c.attempt >= minAttempt' ==>
                 w.createdAt < c.createdAt || (w.createdAt == c.createdAt && w.id <= c.id)
  {
    WinnerIsLeastLive(claims, minAttempt, now);
    LeastLiveIsWinner(claims + more, minAttempt', now', w);
  }
}
