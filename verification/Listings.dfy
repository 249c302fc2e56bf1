/** Listings with portal-scoped identity, and their visibility per search. */
module Listings {
  import opened Domain
  import opened Wrappers
  import opened Timestamps
  import opened Ordering

  /** The descriptive columns that count as material, apart from identity and price. */
  type Details = nat
  type Source = nat

  /** A listing as a spider reports it: it always carries an external id or a canonical URL. */
  datatype Report = Report(
    portal: Portal, externalId: Option<string>, url: Option<string>, price: Option<nat>,
    details: Details, source: Source, observedAt: Instant)
  {
    predicate Identified() { externalId.Some? || url.Some? }
  }

  type Listing = r: Report | r.Identified() witness Report(Pisoscom, Some("1"), None, None, 0, 0, 0)

  datatype Row = Row(
    portal: Portal, externalId: Option<string>, url: Option<string>, price: Option<nat>,
    details: Details, source: Source, firstSeen: Instant, lastSeen: Instant, active: bool)

  datatype Match = Match(firstSeen: Instant, lastSeen: Instant, active: bool)

  /** Matches are keyed by (search, listing). */
  datatype Visibility = Visibility(listings: map<nat, Row>, matches: map<(nat, nat), Match>)

  datatype MatchOutcome = New | Changed | Reappeared | Unchanged

  datatype Error = ValueError | IntegrityError | IdentityConflict | PriceConflict | LookupError

  // ---------- Identity ----------

  predicate HasExternalId(row: Row, l: Report) {
    row.portal == l.portal && l.externalId.Some? && row.externalId == l.externalId
  }

  predicate HasUrl(row: Row, l: Report) {
    row.portal == l.portal && l.url.Some? && row.url == l.url
  }

  function First(ids: set<nat>): (r: Option<nat>)
    ensures r.None? <==> ids == {}
    ensures r.Some? ==> r.value in ids
  {
    if ids == {} then None else Some(Least(ids, map id | id in ids :: 0))
  }

  function ExternalIdHolders(listings: map<nat, Row>, l: Report): set<nat> {
    set id | id in listings && HasExternalId(listings[id], l)
  }

  function UrlHolders(listings: map<nat, Row>, l: Report): set<nat> {
    set id | id in listings && HasUrl(listings[id], l)
  }

  function ByExternalId(listings: map<nat, Row>, l: Report): Option<nat> { First(ExternalIdHolders(listings, l)) }

  function ByUrl(listings: map<nat, Row>, l: Report): Option<nat> { First(UrlHolders(listings, l)) }

  function FindListing(listings: map<nat, Row>, l: Report): Result<Option<nat>, Error> {
    var byId, byUrl := ByExternalId(listings, l), ByUrl(listings, l);
    if byId.Some? && byUrl.Some? && byId != byUrl then Raised(IdentityConflict)
    else Ok(if byId.Some? then byId else byUrl)
  }

  predicate SameExternalId(a: Row, b: Row) {
    a.portal == b.portal && a.externalId.Some? && a.externalId == b.externalId
  }

  predicate SameUrl(a: Row, b: Row) {
    a.portal == b.portal && a.url.Some? && a.url == b.url
  }

  /** (portal, external id) and (portal, URL) are partial injections, and every row has one of them. */
  predicate Identity(listings: map<nat, Row>) {
    && (forall i, j {:trigger SameExternalId(listings[i], listings[j])} ::
          i in listings && j in listings && SameExternalId(listings[i], listings[j]) ==> i == j)
    && (forall i, j {:trigger SameUrl(listings[i], listings[j])} ::
          i in listings && j in listings && SameUrl(listings[i], listings[j]) ==> i == j)
    && (forall i :: i in listings ==> listings[i].externalId.Some? || listings[i].url.Some?)
  }

  // ---------- Upserting ----------

  predicate MaterialEqual(row: Row, l: Report) {
    row.portal == l.portal && row.externalId == l.externalId && row.url == l.url && row.price == l.price && row.details == l.details
  }

  function Overwritten(row: Row, l: Report): Row {
    Row(l.portal, l.externalId, l.url, l.price, l.details, l.source, row.firstSeen, l.observedAt, true)
  }

  datatype Upsert = Upsert(listings: map<nat, Row>, id: nat, changed: bool)

  /** Insert or overwrite the listing row. The schema wants `last_seen_at >= first_seen_at` as text. */
  function UpsertListing(listings: map<nat, Row>, l: Report): Result<Upsert, Error> {
    match FindListing(listings, l)
    case Raised(error) => Raised(error)
    case Ok(None) =>
      var id := NextId(listings.Keys);
      var row := Row(l.portal, l.externalId, l.url, l.price, l.details, l.source, l.observedAt, l.observedAt, true);
      Ok(Upsert(listings[id := row], id, false))
    case Ok(Some(id)) =>
      var row := listings[id];
      if !StoredAtMost(row.firstSeen, l.observedAt) then Raised(IntegrityError)
      else Ok(Upsert(listings[id := Overwritten(row, l)], id, !MaterialEqual(row, l)))
  }

  /** Two rows claim the listing: one by its external id, another by its URL. */
  predicate Contested(listings: map<nat, Row>, l: Report) {
    exists i, j :: i in listings && j in listings && i != j && HasExternalId(listings[i], l) && HasUrl(listings[j], l)
  }

  lemma FindIsUnique(listings: map<nat, Row>, l: Report, i: nat)
    requires Identity(listings) && i in listings
    ensures HasExternalId(listings[i], l) ==> ByExternalId(listings, l) == Some(i)
    ensures HasUrl(listings[i], l) ==> ByUrl(listings, l) == Some(i)
  {
    if HasExternalId(listings[i], l) {
      var j := ByExternalId(listings, l);
      assert i in ExternalIdHolders(listings, l) && j.Some? && SameExternalId(listings[i], listings[j.value]);
    }
    if HasUrl(listings[i], l) {
      var j := ByUrl(listings, l);
      assert i in UrlHolders(listings, l) && j.Some? && SameUrl(listings[i], listings[j.value]);
    }
  }

  /** A conflict is raised exactly when the external id and the URL belong to different rows. */
  lemma ConflictExactlyWhenContested(listings: map<nat, Row>, l: Report)
    requires Identity(listings)
    ensures FindListing(listings, l) == Raised(IdentityConflict) <==> Contested(listings, l)
  {
    if Contested(listings, l) {
      var i, j :| i in listings && j in listings && i != j && HasExternalId(listings[i], l) && HasUrl(listings[j], l);
      FindIsUnique(listings, l, i);
      FindIsUnique(listings, l, j);
    }
  }

  /** The row a listing resolves to is the only one that shares either identifier with it. */
  lemma FoundIsOnlyHolder(listings: map<nat, Row>, l: Report)
    requires Identity(listings) && FindListing(listings, l).Ok?
    ensures var found := FindListing(listings, l).value;
            forall i :: i in listings && (HasExternalId(listings[i], l) || HasUrl(listings[i], l)) ==> found == Some(i)
    ensures var found := FindListing(listings, l).value;
            found.Some? ==> found.value in listings && listings[found.value].portal == l.portal
  {
    forall i | i in listings && (HasExternalId(listings[i], l) || HasUrl(listings[i], l))
      ensures FindListing(listings, l).value == Some(i)
    {
      FindIsUnique(listings, l, i);
    }
  }

  /** Every accepted upsert keeps identity unique, also when it overwrites an id or a URL with null,
      so the unique indexes never have to reject one. */
  lemma UpsertKeepsIdentity(listings: map<nat, Row>, l: Listing)
    requires Identity(listings) && UpsertListing(listings, l).Ok?
    ensures var u := UpsertListing(listings, l).value;
            && Identity(u.listings)
            && u.id in u.listings && u.listings[u.id].portal == l.portal
            && u.listings.Keys == listings.Keys + {u.id}
            && (forall i :: i in listings && i != u.id ==> u.listings[i] == listings[i])
  {
    FoundIsOnlyHolder(listings, l);
    hide FindListing;
    var u := UpsertListing(listings, l).value;
    var after := u.listings;
    forall i | i in listings && i != u.id ensures !HasExternalId(listings[i], l) && !HasUrl(listings[i], l) {
    }
    forall i, j | i in after && j in after && SameExternalId(after[i], after[j]) ensures i == j {
      assert i != u.id ==> !HasExternalId(listings[i], l);
      assert j != u.id ==> !HasExternalId(listings[j], l);
      assert i != u.id && j != u.id ==> SameExternalId(listings[i], listings[j]);
    }
    forall i, j | i in after && j in after && SameUrl(after[i], after[j]) ensures i == j {
      assert i != u.id ==> !HasUrl(listings[i], l);
      assert j != u.id ==> !HasUrl(listings[j], l);
      assert i != u.id && j != u.id ==> SameUrl(listings[i], listings[j]);
    }
  }

  // ---------- Visibility ----------

  datatype Ingested = Ingested(visibility: Visibility, id: nat, outcome: MatchOutcome, created: bool)

  /** `ingest_locked`: upsert the listing and make it visible to the search. */
  function IngestOne(v: Visibility, searches: set<nat>, search: nat, l: Report): Result<Ingested, Error> {
    match UpsertListing(v.listings, l)
    case Raised(error) => Raised(error)
    case Ok(u) =>
      var key := (search, u.id);
      var created := u.id !in v.listings;
      if key !in v.matches then
        if search !in searches then Raised(IntegrityError)
        else Ok(Ingested(Visibility(u.listings, v.matches[key := Match(l.observedAt, l.observedAt, true)]), u.id, New, created))
      else
        var m := v.matches[key];
        if !StoredAtMost(m.firstSeen, l.observedAt) then Raised(IntegrityError)
        else
          var outcome := if !m.active then Reappeared else if u.changed then Changed else Unchanged;
          Ok(Ingested(Visibility(u.listings, v.matches[key := Match(m.firstSeen, l.observedAt, true)]), u.id, outcome, created))
  }

  /** What a refused ingest has written by the time it raises, until its transaction is rolled back:
      the listing, if only its match was refused. */
  function LeftByRefusal(v: Visibility, l: Report): Visibility {
    match UpsertListing(v.listings, l)
    case Ok(u) => v.(listings := u.listings)
    case Raised(_) => v
  }

  /** The listings of a portal that a search currently shows. */
  function ActiveOn(v: Visibility, search: nat, portal: Portal): set<nat> {
    set id | id in v.listings && v.listings[id].portal == portal && (search, id) in v.matches && v.matches[(search, id)].active
  }

  predicate Shown(matches: map<(nat, nat), Match>, listing: nat) {
    exists k :: k in matches && k.1 == listing && matches[k].active
  }

  datatype Disappearance = Disappearance(reconciled: bool, matches: set<nat>, listings: set<nat>)

  function WithoutMatches(matches: map<(nat, nat), Match>, search: nat, missing: set<nat>): map<(nat, nat), Match> {
    map k | k in matches :: if k.0 == search && k.1 in missing then matches[k].(active := false) else matches[k]
  }

  function WithoutListings(listings: map<nat, Row>, hidden: set<nat>): map<nat, Row> {
    map id | id in listings :: if id in hidden then listings[id].(active := false) else listings[id]
  }

  /** The missing listings that no search shows any more. */
  function NoLongerShown(matches: map<(nat, nat), Match>, missing: set<nat>): set<nat> {
    set id | id in missing && !Shown(matches, id)
  }

  /** `reconcile_portal_locked`: hide what a conclusive attempt no longer reports. */
  function Reconcile(v: Visibility, search: nat, portal: Portal, seen: set<nat>, status: RunStatus): (Visibility, Disappearance) {
    if !status.Conclusive() then (v, Disappearance(false, {}, {}))
    else
      var missing := ActiveOn(v, search, portal) - seen;
      var matches := WithoutMatches(v.matches, search, missing);
      var hidden := NoLongerShown(matches, missing);
      (Visibility(WithoutListings(v.listings, hidden), matches), Disappearance(true, missing, hidden))
  }

  // ---------- A listing is active iff some search shows it ----------

  predicate ListingActiveIffShown(v: Visibility, id: nat) {
    id in v.listings && (v.listings[id].active <==> Shown(v.matches, id))
  }

  predicate Linked(v: Visibility) {
    forall k {:trigger k in v.matches} :: k in v.matches ==> k.1 in v.listings
  }

  predicate ActiveIffShown(v: Visibility) {
    Linked(v) && forall id {:trigger ListingActiveIffShown(v, id)} :: id in v.listings ==> ListingActiveIffShown(v, id)
  }

  /** What also survives the deletion of a search. */
  predicate ShownImpliesActive(v: Visibility) {
    Linked(v) && forall id :: id in v.listings && Shown(v.matches, id) ==> v.listings[id].active
  }

  /** One row and one match are written, and nothing else. */
  lemma IngestOneWrites(v: Visibility, searches: set<nat>, search: nat, l: Listing)
    requires Identity(v.listings) && IngestOne(v, searches, search, l).Ok?
    ensures var r := IngestOne(v, searches, search, l).value;
            var v', key := r.visibility, (search, r.id);
            && Identity(v'.listings)
            && r.id in v'.listings && v'.listings[r.id].active && v'.listings[r.id].portal == l.portal
            && (r.id in v.listings ==> v.listings[r.id].portal == l.portal)
            && v'.listings == v.listings[r.id := v'.listings[r.id]]
            && key in v'.matches && v'.matches[key].active
            && v'.matches == v.matches[key := v'.matches[key]]
            && (r.outcome.New? <==> key !in v.matches)
  {
    UpsertKeepsIdentity(v.listings, l);
    FoundIsOnlyHolder(v.listings, l);
    hide Identity, FindListing;
    var r := IngestOne(v, searches, search, l).value;
    assert r.visibility.listings == v.listings[r.id := r.visibility.listings[r.id]];
  }

  /** The row carries the report, both rows keep when they were first seen, and the outcome tells
      what was there: no match, an inactive match, or an active one with or without a difference. */
  lemma IngestOneStoresTheReport(v: Visibility, searches: set<nat>, search: nat, l: Listing)
    requires Identity(v.listings) && IngestOne(v, searches, search, l).Ok?
    ensures var r := IngestOne(v, searches, search, l).value;
            var key := (search, r.id);
            && r.id in r.visibility.listings && key in r.visibility.matches
            && (var row := r.visibility.listings[r.id];
                && row.portal == l.portal && row.externalId == l.externalId && row.url == l.url && row.price == l.price
                && row.details == l.details && row.source == l.source && row.lastSeen == l.observedAt && row.active)
            && r.visibility.listings[r.id].firstSeen == (if r.created then l.observedAt else v.listings[r.id].firstSeen)
            && (r.created <==> r.id !in v.listings)
            && r.visibility.matches[key].lastSeen == l.observedAt
            && r.visibility.matches[key].firstSeen == (if key in v.matches then v.matches[key].firstSeen else l.observedAt)
            && (r.outcome.New? <==> key !in v.matches)
            && (r.outcome.Reappeared? <==> key in v.matches && !v.matches[key].active)
            && (r.outcome.Changed? <==> key in v.matches && v.matches[key].active && r.id in v.listings && !MaterialEqual(v.listings[r.id], l))
  {
    FoundIsOnlyHolder(v.listings, l);
    hide Identity, FindListing;
  }

  lemma IngestOneKeepsShown(v: Visibility, searches: set<nat>, search: nat, l: Listing)
    requires Identity(v.listings) && IngestOne(v, searches, search, l).Ok?
    ensures var r := IngestOne(v, searches, search, l).value;
            && (ActiveIffShown(v) ==> ActiveIffShown(r.visibility))
            && (ShownImpliesActive(v) ==> ShownImpliesActive(r.visibility))
  {
    hide Identity, IngestOne;
    IngestOneWrites(v, searches, search, l);
    var r := IngestOne(v, searches, search, l).value;
    var v' := r.visibility;
    assert Shown(v'.matches, r.id) by { assert v'.matches[(search, r.id)].active; }
    forall id | id in v'.listings && id != r.id ensures Shown(v'.matches, id) <==> Shown(v.matches, id) {
      forall k | k in v'.matches && k.1 == id ensures k in v.matches && v.matches[k] == v'.matches[k] {
      }
      forall k | k in v.matches && k.1 == id ensures k in v'.matches && v.matches[k] == v'.matches[k] {
      }
    }
    if ActiveIffShown(v) {
      forall id | id in v'.listings ensures ListingActiveIffShown(v', id) {
        if id != r.id { assert ListingActiveIffShown(v, id); }
      }
    }
  }

  lemma ReconcileKeepsShown(v: Visibility, search: nat, portal: Portal, seen: set<nat>, status: RunStatus)
    ensures var v' := Reconcile(v, search, portal, seen, status).0;
            && (ActiveIffShown(v) ==> ActiveIffShown(v'))
            && (ShownImpliesActive(v) ==> ShownImpliesActive(v'))
  {
    if status.Conclusive() {
      var v' := Reconcile(v, search, portal, seen, status).0;
      var missing := ActiveOn(v, search, portal) - seen;
      forall id | id in v.listings && id !in missing ensures Shown(v'.matches, id) <==> Shown(v.matches, id) {
        forall k | k in v.matches && k.1 == id ensures v'.matches[k] == v.matches[k] {
        }
      }
      forall id | id in missing ensures Shown(v.matches, id) {
        assert v.matches[(search, id)].active;
      }
      forall id | id in v.listings && Shown(v'.matches, id) ensures Shown(v.matches, id) {
        var k :| k in v'.matches && k.1 == id && v'.matches[k].active;
        assert v.matches[k].active;
      }
      if ActiveIffShown(v) {
        forall id | id in v'.listings ensures ListingActiveIffShown(v', id) {
          assert ListingActiveIffShown(v, id);
        }
      }
    }
  }

  function WithoutSearch(v: Visibility, search: nat): Visibility {
    v.(matches := map k | k in v.matches && k.0 != search :: v.matches[k])
  }

  /** Another search still shows the listing. */
  predicate ShownElsewhere(v: Visibility, search: nat, id: nat) {
    exists k :: k in v.matches && k.0 != search && k.1 == id && v.matches[k].active
  }

  /** Deleting a search keeps "active iff shown" exactly when every listing it shows is also shown
      by another search; "shown implies active" survives every deletion. */
  lemma DeletingASearchKeepsExactlyWhen(v: Visibility, search: nat)
    ensures ShownImpliesActive(v) ==> ShownImpliesActive(WithoutSearch(v, search))
    ensures ActiveIffShown(v) ==>
              (ActiveIffShown(WithoutSearch(v, search)) <==>
               forall id: nat :: (search, id) in v.matches && v.matches[(search, id)].active ==> ShownElsewhere(v, search, id))
  {
    var v' := WithoutSearch(v, search);
    forall id: nat ensures Shown(v'.matches, id) <==> ShownElsewhere(v, search, id) {
      if Shown(v'.matches, id) {
        var k :| k in v'.matches && k.1 == id && v'.matches[k].active;
        assert k.0 != search && v.matches[k].active;
      }
      if ShownElsewhere(v, search, id) {
        var k :| k in v.matches && k.0 != search && k.1 == id && v.matches[k].active;
        assert k in v'.matches && v'.matches[k].active;
      }
    }
    forall id: nat ensures Shown(v.matches, id) <==> ShownElsewhere(v, search, id) || ((search, id) in v.matches && v.matches[(search, id)].active) {
      if Shown(v.matches, id) {
        var k :| k in v.matches && k.1 == id && v.matches[k].active;
        assert k == (search, id) || k.0 != search;
      }
    }
    if ActiveIffShown(v) {
      if ActiveIffShown(v') {
        forall id: nat | (search, id) in v.matches && v.matches[(search, id)].active ensures ShownElsewhere(v, search, id) {
          assert ListingActiveIffShown(v, id) && ListingActiveIffShown(v', id);
        }
      }
      if forall id: nat :: (search, id) in v.matches && v.matches[(search, id)].active ==> ShownElsewhere(v, search, id) {
        forall id | id in v'.listings ensures ListingActiveIffShown(v', id) {
          assert ListingActiveIffShown(v, id);
        }
      }
    }
  }
}
