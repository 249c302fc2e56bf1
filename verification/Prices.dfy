/** The price history: one observation per listing and stored timestamp. */
module Prices {
  import opened Wrappers
  import opened Timestamps

  type History = map<(nat, Instant), nat>  // (listing, observed_at) -> whole euros

  datatype PriceChange = Initial | Drop | Increase | Unchanged

  datatype PriceResult = PriceResult(change: PriceChange, previous: Option<nat>, price: nat, recorded: bool)

  datatype PriceError = ConflictingObservation

  /** Where an instant stands in the order of the stored text. */
  function TextRank(t: Instant): int {
    Second(t) * SECOND + (Micros(t) - 1) % SECOND
  }

  lemma TextRankOrders(s: Instant, t: Instant)
    ensures StoredBefore(s, t) <==> TextRank(s) < TextRank(t)
    ensures TextRank(s) == TextRank(t) ==> s == t
  {
  }

  type Key = (nat, Instant)

  function KeysBefore(history: History, listing: nat, at: Instant): set<Key> {
    set k | k in history && k.0 == listing && StoredBefore(k.1, at)
  }

  predicate IsLastStored(keys: set<Key>, k: Key) {
    k in keys && forall u :: u in keys ==> TextRank(u.1) <= TextRank(k.1)
  }

  lemma {:induction false} LastStoredExists(keys: set<Key>)
    requires keys != {}
    ensures exists k :: IsLastStored(keys, k)
  {
    var a :| a in keys;
    if keys == {a} {
      assert IsLastStored(keys, a);
    } else {
      LastStoredExists(keys - {a});
      var k :| IsLastStored(keys - {a}, k);
      if TextRank(a.1) <= TextRank(k.1) {
        assert IsLastStored(keys, k);
      } else {
        forall u | u in keys ensures TextRank(u.1) <= TextRank(a.1) {
          assert u == a || u in keys - {a};
        }
        assert IsLastStored(keys, a);
      }
    }
  }

  lemma LastStoredIsUnique(keys: set<Key>, j: Key, k: Key)
    requires IsLastStored(keys, j) && IsLastStored(keys, k)
    requires forall u :: u in keys ==> u.0 == j.0
    ensures j == k
  {
    TextRankOrders(j.1, k.1);
  }

  /** `ORDER BY observed_at DESC LIMIT 1`, on the stored text. */
  function PreviousKey(history: History, listing: nat, at: Instant): (r: Option<Key>)
    ensures r.None? <==> KeysBefore(history, listing, at) == {}
    ensures r.Some? ==> IsLastStored(KeysBefore(history, listing, at), r.value)
  {
    var keys := KeysBefore(history, listing, at);
    if keys == {} then None
    else
      assert exists k :: IsLastStored(keys, k) by { LastStoredExists(keys); }
      assert forall j, k :: IsLastStored(keys, j) && IsLastStored(keys, k) ==> j == k by {
        forall j, k | IsLastStored(keys, j) && IsLastStored(keys, k) ensures j == k {
          LastStoredIsUnique(keys, j, k);
        }
      }
      var k :| IsLastStored(keys, k);
      Some(k)
  }

  function Previous(history: History, listing: nat, at: Instant): (r: Option<nat>) {
    match PreviousKey(history, listing, at)
    case None => None
    case Some(k) => Some(history[k])
  }

  function Change(previous: Option<nat>, current: nat): PriceChange {
    match previous
    case None => Initial
    case Some(p) => if current < p then Drop else if current > p then Increase else Unchanged
  }

  function Record(history: History, listing: nat, price: nat, at: Instant): Result<(History, PriceResult), PriceError> {
    var key := (listing, at);
    var previous := Previous(history, listing, at);
    if key in history then
      if history[key] != price then Raised(ConflictingObservation)
      else Ok((history, PriceResult(Change(previous, price), previous, price, false)))
    else
      Ok((history[key := price], PriceResult(Change(previous, price), previous, price, true)))
  }

  /** All observations of the listing, and the new one, are stored with the same precision. */
  predicate UniformPrecision(history: History, listing: nat, at: Instant) {
    || (Micros(at) == 0 && forall k :: k in history && k.0 == listing ==> Micros(k.1) == 0)
    || (Micros(at) != 0 && forall k :: k in history && k.0 == listing ==> Micros(k.1) != 0)
  }

  /** On a history of uniform precision the text comparison finds the chronological predecessor. */
  lemma PreviousIsChronological(history: History, listing: nat, at: Instant)
    requires UniformPrecision(history, listing, at)
    ensures match PreviousKey(history, listing, at)
            case None => Previous(history, listing, at) == None && forall t :: (listing, t) in history ==> at <= t
            case Some(p) =>
              && p in history && p.0 == listing && p.1 < at
              && Previous(history, listing, at) == Some(history[p])
              && forall t :: (listing, t) in history && t < at ==> t <= p.1
  {
    var keys := KeysBefore(history, listing, at);
    forall k | k in history && k.0 == listing ensures k in keys <==> k.1 < at {
    }
    var r := PreviousKey(history, listing, at);
    if r.Some? {
      forall t | (listing, t) in history && t < at ensures t <= r.value.1 {
        TextRankOrders(r.value.1, t);
        assert (listing, t) in keys;
      }
    } else {
      forall t | (listing, t) in history ensures at <= t {
        assert (listing, t) !in keys;
      }
    }
  }

  predicate Seen(history: History, listing: nat, t: Instant) { (listing, t) in history }

  /** `r` is the observation of the listing that comes last before `at` in time. */
  ghost predicate IsPredecessor(history: History, listing: nat, at: Instant, r: Option<Key>) {
    match r
    case None => forall t :: Seen(history, listing, t) ==> at <= t
    case Some(p) =>
      && p.0 == listing && Seen(history, listing, p.1) && p.1 < at
      && forall t :: Seen(history, listing, t) && t < at ==> t <= p.1
  }

  /** An observation on the full second takes later ones in that second for earlier ones. */
  ghost predicate LaterCountsAsEarlier(history: History, listing: nat, at: Instant) {
    Micros(at) == 0 && exists t :: Seen(history, listing, t) && Second(t) == Second(at) && t != at
  }

  /** The only earlier observation in the second is the one on the full second. */
  ghost predicate FullSecondIsMissed(history: History, listing: nat, at: Instant) {
    && Micros(at) != 0 && Seen(history, listing, at - Micros(at))
    && forall t :: Seen(history, listing, t) && Second(t) == Second(at) && Micros(t) != 0 ==> at <= t
  }

  ghost predicate NothingBetween(history: History, listing: nat, second: int, at: Instant) {
    forall u :: Seen(history, listing, u) && u < at ==> Second(u) <= second
  }

  /** The last observations before this second share theirs with one on the full second. */
  ghost predicate MixedSecondBefore(history: History, listing: nat, at: Instant) {
    exists t {:trigger Seen(history, listing, t)} ::
      Seen(history, listing, t) && Second(t) < Second(at) && Micros(t) != 0 && Seen(history, listing, t - Micros(t)) &&
      NothingBetween(history, listing, Second(t), at)
  }

  ghost predicate Misled(history: History, listing: nat, at: Instant) {
    LaterCountsAsEarlier(history, listing, at) || FullSecondIsMissed(history, listing, at) || MixedSecondBefore(history, listing, at)
  }

  lemma PreviousIsLastStored(history: History, listing: nat, at: Instant, t: Instant)
    requires Seen(history, listing, t) && StoredBefore(t, at)
    ensures var r := PreviousKey(history, listing, at);
            r.Some? && r.value.0 == listing && Seen(history, listing, r.value.1) && StoredBefore(r.value.1, at)
            && (t == r.value.1 || StoredBefore(t, r.value.1))
  {
    assert (listing, t) in KeysBefore(history, listing, at);
    TextRankOrders(t, PreviousKey(history, listing, at).value.1);
  }

  lemma MisledIsWrong(history: History, listing: nat, at: Instant)
    requires Misled(history, listing, at)
    ensures !IsPredecessor(history, listing, at, PreviousKey(history, listing, at))
  {
    hide PreviousKey;
    if LaterCountsAsEarlier(history, listing, at) {
      var t :| Seen(history, listing, t) && Second(t) == Second(at) && t != at;
      PreviousIsLastStored(history, listing, at, t);
    } else if FullSecondIsMissed(history, listing, at) {
      PreviousIsStored(history, listing, at);
    } else {
      var t {:trigger Seen(history, listing, t)} :| Seen(history, listing, t) && Second(t) < Second(at) && Micros(t) != 0 &&
               Seen(history, listing, t - Micros(t)) && NothingBetween(history, listing, Second(t), at);
      PreviousIsLastStored(history, listing, at, t - Micros(t));
      PreviousIsLastStored(history, listing, at, t);
    }
  }

  lemma PreviousIsStored(history: History, listing: nat, at: Instant)
    ensures var r := PreviousKey(history, listing, at);
            r.Some? ==> r.value.0 == listing && Seen(history, listing, r.value.1) && StoredBefore(r.value.1, at)
  {
  }

  lemma NotMisledIsRight(history: History, listing: nat, at: Instant)
    requires !Misled(history, listing, at)
    ensures IsPredecessor(history, listing, at, PreviousKey(history, listing, at))
  {
    PreviousIsStored(history, listing, at);
    hide PreviousKey;
    var r := PreviousKey(history, listing, at);
    if r.Some? {
      assert r.value.1 < at;
    }
    forall t | Seen(history, listing, t) && t < at ensures r.Some? && t <= r.value.1 {
      if StoredBefore(t, at) {
        PreviousIsLastStored(history, listing, at, t);
      } else {
        assert t == at - Micros(at) && Micros(at) != 0;
        var u :| Seen(history, listing, u) && Second(u) == Second(at) && Micros(u) != 0 && u < at;
        PreviousIsLastStored(history, listing, at, u);
      }
    }
  }

  /** On any history the text comparison finds the chronological predecessor exactly when precision
      is not mixed in one of three ways: in the second of the observation, one of them later or the
      only one earlier, or in the last second before it that has observations. */
  lemma PreviousIsChronologicalExactlyWhen(history: History, listing: nat, at: Instant)
    ensures IsPredecessor(history, listing, at, PreviousKey(history, listing, at)) <==> !Misled(history, listing, at)
  {
    if Misled(history, listing, at) { MisledIsWrong(history, listing, at); } else { NotMisledIsRight(history, listing, at); }
  }

  /** With mixed precision it does not: an observation on the full second is not seen by a later
      one in the same second, and a drop is taken for a first price. */
  lemma PredecessorIsMissed(listing: nat, second: nat, micros: nat, high: nat, low: nat)
    requires 0 < micros < SECOND && low < high
    ensures var history: History := map[(listing, second * SECOND) := high];
            Record(history, listing, low, second * SECOND + micros) ==
              Ok((history[(listing, second * SECOND + micros) := low], PriceResult(Initial, None, low, true)))
  {
    var history: History := map[(listing, second * SECOND) := high];
    var at := second * SECOND + micros;
    assert Second(at) == second && Micros(at) == micros;
    assert Second(second * SECOND) == second && Micros(second * SECOND) == 0;
    assert KeysBefore(history, listing, at) == {};
  }
}
