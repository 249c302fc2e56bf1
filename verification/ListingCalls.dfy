/** What each call of the listing, price and visibility tables means for their columns. */
module ListingCalls {
  import opened Domain
  import opened Wrappers
  import opened Timestamps
  import opened Listings
  import opened Ordering
  import Prices

  // ---------- Listings ----------

  /** A row is found exactly when it is of the listing's portal and shares an external id or a URL with
      it; a conflict is raised exactly when one row shares the first and another the second. */
  lemma FindingSpelledOut(listings: map<nat, Row>, l: Listing)
    requires Identity(listings)
    ensures var r := FindListing(listings, l);
            && (r.Raised? <==> exists i, j :: i in listings && j in listings && i != j && listings[i].portal == l.portal == listings[j].portal &&
                                 l.externalId.Some? && listings[i].externalId == l.externalId && l.url.Some? && listings[j].url == l.url)
            && (r.Raised? ==> r.error == IdentityConflict)
            && (r.Ok? ==> forall id :: id in listings ==>
                  (r.value == Some(id) <==>
                     listings[id].portal == l.portal &&
                     ((l.externalId.Some? && listings[id].externalId == l.externalId) || (l.url.Some? && listings[id].url == l.url))))
            && (r.Ok? && r.value.Some? ==> r.value.value in listings)
  {
    ConflictExactlyWhenContested(listings, l);
    if Contested(listings, l) {
      var i, j :| i in listings && j in listings && i != j && HasExternalId(listings[i], l) && HasUrl(listings[j], l);
      assert listings[i].portal == l.portal == listings[j].portal;
    }
    if FindListing(listings, l).Ok? {
      FoundIsOnlyHolder(listings, l);
      var found := FindListing(listings, l).value;
      if found.Some? {
        assert HasExternalId(listings[found.value], l) || HasUrl(listings[found.value], l);
      }
    }
    hide Identity, ByExternalId, ByUrl;
  }

  /** Ingesting a listing raises for a conflict, for an observation whose text sorts before the row's or
      the match's first one, and for a search that does not exist; for nothing else. */
  lemma IngestRaisesExactlyWhen(v: Visibility, searches: set<nat>, search: nat, l: Listing)
    requires Identity(v.listings) && forall k :: k in v.matches ==> k.1 in v.listings
    ensures var found, r := FindListing(v.listings, l), IngestOne(v, searches, search, l);
            if found.Raised? then r == Raised(IdentityConflict)
            else
              && (r.Raised? ==> r.error == IntegrityError)
              && (found.value.None? ==> (r.Raised? <==> search !in searches))
              && (found.value.Some? ==>
                    var id := found.value.value;
                    && id in v.listings
                    && (r.Raised? <==>
                          || !(v.listings[id].firstSeen == l.observedAt || StoredBefore(v.listings[id].firstSeen, l.observedAt))
                          || ((search, id) !in v.matches && search !in searches)
                          || ((search, id) in v.matches &&
                              !(v.matches[(search, id)].firstSeen == l.observedAt || StoredBefore(v.matches[(search, id)].firstSeen, l.observedAt)))))
  {
    FindingSpelledOut(v.listings, l);
    hide Identity, FindListing;
  }

  /** A listing that the search shows already comes out as changed exactly when its external id, its
      URL, its price or a descriptive column differs from the row, and as unchanged otherwise. */
  lemma ChangedExactlyWhen(v: Visibility, searches: set<nat>, search: nat, l: Listing)
    requires Identity(v.listings) && IngestOne(v, searches, search, l).Ok?
    ensures var r := IngestOne(v, searches, search, l).value;
            r.id in v.listings && (search, r.id) in v.matches && v.matches[(search, r.id)].active ==>
              var row := v.listings[r.id];
              && (r.outcome == Changed <==>
                    row.externalId != l.externalId || row.url != l.url || row.price != l.price || row.details != l.details)
              && (r.outcome == Changed || r.outcome == Unchanged)
  {
    FindingSpelledOut(v.listings, l);
    hide Identity, FindListing;
  }

  // ---------- Disappearance ----------

  /** Only a successful or an empty attempt hides anything. It makes inactive exactly the active matches
      of the search whose listing is of the portal and was not seen, and of these listings exactly
      those that no active match is left for; every other row and column stays. */
  lemma ReconcilingSpelledOut(v: Visibility, search: nat, portal: Portal, seen: set<nat>, status: RunStatus)
    ensures var (after, gone) := Reconcile(v, search, portal, seen, status);
            if status != Success && status != Empty then after == v && gone == Disappearance(false, {}, {})
            else
              && gone.reconciled
              && (forall id :: id in gone.matches <==>
                    id in v.listings && v.listings[id].portal == portal && (search, id) in v.matches && v.matches[(search, id)].active && id !in seen)
              && (forall id :: id in gone.listings <==>
                    id in gone.matches && forall k :: k in v.matches && k.1 == id && k.0 != search ==> !v.matches[k].active)
              && after.matches.Keys == v.matches.Keys && after.listings.Keys == v.listings.Keys
              && (forall k :: k in v.matches ==>
                    after.matches[k] == if k.0 == search && k.1 in gone.matches then v.matches[k].(active := false) else v.matches[k])
              && (forall id :: id in v.listings ==>
                    after.listings[id] == if id in gone.listings then v.listings[id].(active := false) else v.listings[id])
  {
    if status == Success || status == Empty {
      var missing := ActiveOn(v, search, portal) - seen;
      var matches := WithoutMatches(v.matches, search, missing);
      forall id | id in missing
        ensures Shown(matches, id) <==> !forall k :: k in v.matches && k.1 == id && k.0 != search ==> !v.matches[k].active
      {
        StillShown(v.matches, search, missing, id);
      }
      hide Shown;
    }
  }

  lemma StillShown(before: map<(nat, nat), Match>, search: nat, missing: set<nat>, id: nat)
    requires id in missing
    ensures Shown(WithoutMatches(before, search, missing), id) <==>
              !forall k :: k in before && k.1 == id && k.0 != search ==> !before[k].active
  {
    var after := WithoutMatches(before, search, missing);
    if Shown(after, id) {
      var k :| k in after && k.1 == id && after[k].active;
      assert k in before && k.0 != search && before[k].active;
    }
    if k :| k in before && k.1 == id && k.0 != search && before[k].active {
      assert k in after && after[k].active;
    }
  }

  // ---------- Prices ----------

  /** Recording the same price at the same time again writes nothing, another price then raises, and any
      other observation is written. The change is told from the previous price alone. */
  lemma RecordingSpelledOut(history: Prices.History, listing: nat, price: nat, at: Instant)
    ensures var previous, r := Prices.Previous(history, listing, at), Prices.Record(history, listing, price, at);
            && (r.Raised? <==> (listing, at) in history && history[(listing, at)] != price)
            && (r.Ok? ==>
                  var (after, told) := r.value;
                  && after == history[(listing, at) := price]
                  && told.recorded == ((listing, at) !in history)
                  && told.previous == previous && told.price == price
                  && (told.change == Prices.Initial <==> previous.None?)
                  && (told.change == Prices.Drop <==> previous.Some? && price < previous.value)
                  && (told.change == Prices.Increase <==> previous.Some? && previous.value < price)
                  && (told.change == Prices.Unchanged <==> previous == Some(price)))
  {
    hide Prices.Previous;
    var r := Prices.Record(history, listing, price, at);
    if (listing, at) in history && history[(listing, at)] == price {
      assert history[(listing, at) := price] == history;
    }
  }
}
