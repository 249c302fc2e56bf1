/** What narrowing, pairing, scoring and reviewing mean for the columns of listings and groups. */
module DuplicateCalls {
  import opened Domain
  import opened Wrappers
  import opened Ordering
  import opened Timestamps
  import opened DuplicateMatching
  import opened DuplicateScoring
  import opened DuplicateNarrowing
  import opened DuplicateGroups
  import opened DuplicateCandidates

  // ---------- Narrowing ----------

  /** Two texts are the same without case when they differ at most in the case of ASCII letters. */
  lemma NoCaseSpelledOut(a: string, b: string)
    ensures NoCase(a) == NoCase(b) <==>
              |a| == |b| && forall i :: 0 <= i < |a| ==>
                || a[i] == b[i]
                || ('A' <= a[i] <= 'Z' && b[i] as int == a[i] as int + 32)
                || ('A' <= b[i] <= 'Z' && a[i] as int == b[i] as int + 32)
  {
    if NoCase(a) == NoCase(b) {
      forall i | 0 <= i < |a|
        ensures a[i] == b[i] || ('A' <= a[i] <= 'Z' && b[i] as int == a[i] as int + 32) || ('A' <= b[i] <= 'Z' && a[i] as int == b[i] as int + 32)
      {
        assert NoCase(a)[i] == NoCase(b)[i];
      }
    }
  }

  /** A row is admitted exactly when the source has a location, the transaction is the same and the
      location is without case, the portal and the id are others, rooms and property type do not differ
      where both are known, and price and area lie in their windows where both are known. */
  lemma CandidatesSpelledOut(listings: Listings, source: Snapshot, windows: Windows, id: nat)
    requires id in listings
    ensures id in Candidates(listings, source, windows) <==>
              var row := listings[id];
              && source.location.Some? && source.location.value != "" && row.location.Some?
              && NoCase(row.location.value) == NoCase(source.location.value)
              && row.transactionType == source.transactionType && row.portal != source.portal && row.id != source.id
              && (source.rooms.Some? && row.rooms.Some? ==> row.rooms.value == source.rooms.value)
              && (source.propertyType != UnknownType && row.propertyType != UnknownType ==> row.propertyType == source.propertyType)
              && (source.price.Some? && row.price.Some? ==>
                    source.price.value as real * (1.0 - windows.price) <= row.price.value as real <= source.price.value as real * (1.0 + windows.price))
              && (source.area.Some? && row.area.Some? ==>
                    source.area.value * (1.0 - windows.area) <= row.area.value <= source.area.value * (1.0 + windows.area))
  {
    hide NoCase;
  }

  /** At least two structural matches: some two of an equal known property type, equal known rooms, two
      known areas, and two known prices. */
  lemma StructuralMatchesSpelledOut(a: Snapshot, b: Snapshot)
    ensures var sameType := a.propertyType != UnknownType && b.propertyType != UnknownType && a.propertyType == b.propertyType;
            var sameRooms := a.rooms.Some? && b.rooms.Some? && a.rooms.value == b.rooms.value;
            var areas, prices := a.area.Some? && b.area.Some?, a.price.Some? && b.price.Some?;
            KnownStructuralMatches(a, b) >= 2 <==>
              || (sameType && sameRooms) || (sameType && areas) || (sameType && prices)
              || (sameRooms && areas) || (sameRooms && prices) || (areas && prices)
  {
  }

  // ---------- Pairs ----------

  /** The key of a pair is its two ids, the lesser first, whichever way the pair is given. */
  lemma KeySpelledOut(a: nat, b: nat)
    ensures Key(a, b).0 <= Key(a, b).1 && {Key(a, b).0, Key(a, b).1} == {a, b} && Key(a, b) == Key(b, a)
  {
  }

  /** Sorted pairs ascend by the lesser id, and by the greater one where that is the same. */
  lemma KeyOrderSpelledOut(sorted: seq<Pair>, pairs: map<(nat, nat), Pair>, i: nat, j: nat)
    requires InKeyOrder(sorted, pairs) && i < j < |sorted|
    ensures var one, other := KeyOf(sorted[i]), KeyOf(sorted[j]);
            one.0 < other.0 || (one.0 == other.0 && one.1 < other.1)
  {
  }

  /** The sources are the first distinct ids, in the order in which they first appear. */
  lemma {:induction false} SourcesSpelledOut(ids: seq<nat>, most: nat, i: nat, j: nat)
    requires i < j < |Chosen(ids, most)|
    ensures |Chosen(ids, most)| <= most
    ensures exists p :: 0 <= p < |ids| && ids[p] == Chosen(ids, most)[i] && Chosen(ids, most)[j] !in ids[..p]
  {
    AppearsFirst(ids, i, j);
  }

  lemma {:induction false} AppearsFirst(ids: seq<nat>, i: nat, j: nat)
    requires i < j < |FirstOccurrences(ids)|
    ensures var r := FirstOccurrences(ids);
            exists p :: 0 <= p < |ids| && ids[p] == r[i] && r[j] !in ids[..p]
  {
    var r, last := FirstOccurrences(ids), ids[|ids| - 1];
    var init := FirstOccurrences(ids[..|ids| - 1]);
    if j < |init| {
      AppearsFirst(ids[..|ids| - 1], i, j);
      var p :| 0 <= p < |ids| - 1 && ids[..|ids| - 1][p] == init[i] && init[j] !in ids[..|ids| - 1][..p];
      assert ids[..|ids| - 1][..p] == ids[..p];
    } else {
      var front := ids[..|ids| - 1];
      assert init[i] in init && init[i] in front;
      var p :| 0 <= p < |front| && front[p] == init[i];
      assert last !in front && front[..p] == ids[..p];
      assert forall x :: x in front[..p] ==> x in front;
    }
  }

  // ---------- Groups ----------

  /** A scored pair keeps what a person decided and when the group began; a new one is pending and begins
      now, with its two listings as members. */
  lemma RescoringSpelledOut(groups: Groups, a: nat, b: nat, score: real, reasons: seq<Reason>, at: Instant)
    requires a < b
    ensures var after := Upserted(groups, (a, b), score, reasons, at);
            && after.Keys == groups.Keys + {(a, b)}
            && (forall key :: key in groups && key != (a, b) ==> after[key] == groups[key])
            && var g := after[(a, b)];
               && g.score == score && g.reasons == reasons && g.updatedAt == at
               && (if (a, b) in groups then
                     var old_ := groups[(a, b)];
                     && g.reviewState == old_.reviewState && g.reviewedAt == old_.reviewedAt
                     && g.createdAt == old_.createdAt && g.members == old_.members
                   else
                     && g.reviewState == Pending && g.reviewedAt == None
                     && g.createdAt == at && g.members == map[a := at, b := at])
  {
  }

  /** An accepted decision stores the state and the time that were asked for, on that group alone, and
      leaves its score. A decision is accepted exactly for a pending group, a state other than pending,
      and a time whose text does not sort before the group's creation. */
  lemma DecisionSpelledOut(groups: Groups, key: (nat, nat), state: ReviewState, at: Instant)
    ensures var r := Decided(groups, key, state, at);
            && (r.Ok? <==>
                  && (state == Accepted || state == Rejected) && key in groups && groups[key].reviewState == Pending
                  && (groups[key].createdAt == at || StoredBefore(groups[key].createdAt, at)))
            && (r.Ok? ==>
                  var after := r.value;
                  && after.Keys == groups.Keys
                  && (forall other :: other in groups && other != key ==> after[other] == groups[other])
                  && after[key].reviewState == state && after[key].reviewedAt == Some(at) && after[key].updatedAt == at
                  && after[key].score == groups[key].score && after[key].reasons == groups[key].reasons
                  && after[key].createdAt == groups[key].createdAt && after[key].members == groups[key].members)
            && (r.Raised? ==> r.error == if state == Pending then ValueError else if key !in groups then LookupError
                                         else if groups[key].reviewState != Pending then AlreadyReviewedError else IntegrityError)
  {
  }

  /** The confidence of a group is high from 0.85 on. */
  lemma ConfidenceSpelledOut(g: Group)
    ensures g.Confidence() == High <==> g.score >= 0.85
  {
  }

  /** A rejected pair is one whose group a person has rejected. */
  lemma RejectionSpelledOut(groups: Groups, a: nat, b: nat)
    requires a < b
    ensures IsRejected(groups, Key(b, a)) <==> (a, b) in groups && groups[(a, b)].reviewState == Rejected
  {
  }
}
