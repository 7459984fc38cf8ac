/**
  The desktop map view: records are grouped by their exact coordinate pair
  `${lat},${lon}`. Each place takes its coordinates and its
  `${area}, ${city}` label from the first record seen there and lists
  `{name, batch}` for every record at that pair, in input order.
*/
module ClusterMap {
  import opened Wrappers
  import opened MapData
  import opened Grouping

  /** A member of a desktop place. */
  datatype BatchMember = BatchMember(name: string, batch: string)

  /** What a new place copies from the first record seen at its key. */
  datatype Spot = Spot(lat: Token, lon: Token, location: string)

  /** The grouping key `${lat},${lon}`. Splitting it at its first comma
      gives both coordinate texts back whenever the latitude text has no
      comma, which no printed number has. */
  function CoordKey(u: User): (key: string)
    ensures ',' !in u.lat ==> SplitAtComma(key, 1) == (u.lat, u.lon)
  {
    SplitJoin(u.lat, ",", u.lon);
    u.lat + "," + u.lon
  }

  function ToEntry(u: User): Entry<string, Spot, BatchMember> {
    Entry(CoordKey(u), Spot(u.lat, u.lon, AreaCity(u)), BatchMember(u.name, u.batch))
  }

  function Entries(users: seq<User>): (es: seq<Entry<string, Spot, BatchMember>>)
    ensures |es| == |users|
    ensures forall i :: 0 <= i < |users| ==> es[i] == ToEntry(users[i])
  {
    seq(|users|, i requires 0 <= i < |users| => ToEntry(users[i]))
  }

  /** The key of every record, in input order. */
  function CoordKeys(users: seq<User>): (ks: seq<string>)
    ensures |ks| == |users|
    ensures forall i :: 0 <= i < |users| ==> ks[i] == CoordKey(users[i])
  {
    seq(|users|, i requires 0 <= i < |users| => CoordKey(users[i]))
  }

  /** The member every record contributes, in input order. */
  function BatchMembers(users: seq<User>): (ms: seq<BatchMember>)
    ensures |ms| == |users|
    ensures forall i :: 0 <= i < |users| ==> ms[i] == BatchMember(users[i].name, users[i].batch)
  {
    seq(|users|, i requires 0 <= i < |users| => BatchMember(users[i].name, users[i].batch))
  }

  /** One `Object.entries` pair turned into a feature; GeoJSON puts the
      longitude first. Nothing is lost: the feature gives its group back. */
  function ToFeature(g: Group<string, Spot, BatchMember>): (f: Feature<BatchMember>)
    ensures ToGroup(f) == Some(g)
  {
    Feature([g.place.lon, g.place.lat], g.key, g.place.location, g.members)
  }

  /** Reads a feature back as a group; only a point with two coordinates,
      longitude first, can be one. */
  function ToGroup(f: Feature<BatchMember>): Option<Group<string, Spot, BatchMember>> {
    if |f.coordinates| == 2
    then Some(Group(f.id, Spot(f.coordinates[1], f.coordinates[0], f.location), f.users))
    else None
  }

  /** Every two-coordinate feature is the image of the group it reads as. */
  lemma FeatureRoundTrip(f: Feature<BatchMember>)
    ensures ToGroup(f).Some? <==> |f.coordinates| == 2
    ensures ToGroup(f).Some? ==> ToFeature(ToGroup(f).value) == f
  {
    if |f.coordinates| == 2 {
      assert [f.coordinates[0], f.coordinates[1]] == f.coordinates;
    }
  }

  function Features(gs: seq<Group<string, Spot, BatchMember>>): (fs: seq<Feature<BatchMember>>)
    ensures |fs| == |gs|
    ensures forall j :: 0 <= j < |gs| ==> fs[j] == ToFeature(gs[j])
  {
    seq(|gs|, j requires 0 <= j < |gs| => ToFeature(gs[j]))
  }

  /** The feature collection the desktop view builds from the listing. */
  function Places(users: seq<User>): (fs: seq<Feature<BatchMember>>)
    ensures |fs| <= |users|
    ensures |fs| == 0 <==> |users| == 0
  {
    Features(GroupBy(Entries(users)))
  }

  /** Whether the desktop view mounts its cluster layer. */
  function ShowsClusters(isLoading: bool, users: seq<User>): (shown: bool)
    ensures shown <==> !isLoading && |users| > 0
  {
    ClusterLayerShown(isLoading, Places(users))
  }

  // ---------------------------------------------------------------------
  // Connecting the view to the generic fold
  // ---------------------------------------------------------------------

  lemma EntriesProject(users: seq<User>)
    ensures Keys(Entries(users)) == CoordKeys(users)
    ensures Members(Entries(users)) == BatchMembers(users)
  {
  }

  lemma PlacesDescribed(users: seq<User>)
    ensures Keys(Entries(users)) == CoordKeys(users)
    ensures Members(Entries(users)) == BatchMembers(users)
    ensures Ids(Places(users)) == SlotKeys(GroupBy(Entries(users)))
    ensures Describes(GroupBy(Entries(users)), Entries(users))
  {
    EntriesProject(users);
    GroupByDescribes(Entries(users));
  }

  lemma {:induction false} AllUsersOfFeatures(gs: seq<Group<string, Spot, BatchMember>>)
    ensures AllUsers(Features(gs)) == Flatten(gs)
  {
    if |gs| > 0 {
      assert Features(gs)[1..] == Features(gs[1..]);
      AllUsersOfFeatures(gs[1..]);
    }
  }

  // ---------------------------------------------------------------------
  // What the collection says about the listing
  // ---------------------------------------------------------------------

  /** There is one feature per distinct coordinate key: every record's key
      is the id of a feature, every feature id is some record's key, and no
      two features share an id. */
  lemma PlacesOnePerKey(users: seq<User>)
    ensures forall i :: 0 <= i < |users| ==> CoordKey(users[i]) in Ids(Places(users))
    ensures forall j :: 0 <= j < |Places(users)| ==> Places(users)[j].id in CoordKeys(users)
    ensures forall i, j :: 0 <= i < j < |Places(users)| ==> Places(users)[i].id != Places(users)[j].id
  {
    PlacesDescribed(users);
    DescribedSlotsDistinct(GroupBy(Entries(users)), Entries(users));
    assert forall i :: 0 <= i < |users| ==> CoordKeys(users)[i] == CoordKey(users[i]);
  }

  /** Features appear in the order in which their key first occurs in the
      listing. */
  lemma PlacesInFirstSeenOrder(users: seq<User>)
    ensures forall i, j :: 0 <= i < j < |Places(users)| ==>
      IndexOf(CoordKeys(users), Places(users)[i].id) < IndexOf(CoordKeys(users), Places(users)[j].id)
  {
    PlacesDescribed(users);
  }

  /** A feature's coordinates and location label come from the first record
      at its key; later records at the same key change neither. */
  lemma PlacesFirstRecordWins(users: seq<User>)
    ensures forall j :: 0 <= j < |Places(users)| ==>
      && Places(users)[j].id in CoordKeys(users)
      && var u := users[IndexOf(CoordKeys(users), Places(users)[j].id)];
         Places(users)[j].coordinates == [u.lon, u.lat] && Places(users)[j].location == AreaCity(u)
  {
    PlacesDescribed(users);
  }

  /** A feature lists `{name, batch}` of exactly the records at its key, in
      input order, duplicates included. */
  lemma PlacesMembersByKey(users: seq<User>)
    ensures forall j :: 0 <= j < |Places(users)| ==>
      Places(users)[j].users == MembersOf(CoordKeys(users), BatchMembers(users), Places(users)[j].id)
  {
    PlacesDescribed(users);
  }

  /** No record is dropped or counted twice: the members of all features
      are the records' members, rearranged. */
  lemma PlacesKeepEveryUser(users: seq<User>)
    ensures multiset(AllUsers(Places(users))) == multiset(BatchMembers(users))
    ensures |AllUsers(Places(users))| == |users|
  {
    AllUsersOfFeatures(GroupBy(Entries(users)));
    GroupByKeepsEveryMember(Entries(users));
    GroupByMemberCount(Entries(users));
    EntriesProject(users);
  }

  /** When the latitude text contains no comma, two records share a key
      exactly when both coordinate texts are equal. */
  lemma SameCoordKeyIff(u: User, v: User)
    requires ',' !in u.lat && ',' !in v.lat
    ensures CoordKey(u) == CoordKey(v) <==> u.lat == v.lat && u.lon == v.lon
  {
    JoinInjective(u.lat, u.lon, v.lat, v.lon, ",");
  }

  /** Two records end up in the same feature exactly when their keys are
      equal. */
  lemma SamePlaceIffSameKey(users: seq<User>, a: nat, b: nat)
    requires a < |users| && b < |users|
    ensures IndexOf(Ids(Places(users)), CoordKey(users[a])) == IndexOf(Ids(Places(users)), CoordKey(users[b]))
        <==> CoordKey(users[a]) == CoordKey(users[b])
  {
    PlacesOnePerKey(users);
  }

  /** Each record lands in exactly one feature: the one whose id is its key,
      found at the first position holding that id, and that feature lists
      the record's member. */
  lemma RecordInItsPlace(users: seq<User>, a: nat)
    requires a < |users|
    ensures IndexOf(Ids(Places(users)), CoordKey(users[a])) < |Places(users)|
    ensures forall j :: 0 <= j < |Places(users)| ==>
      (Places(users)[j].id == CoordKey(users[a]) <==> j == IndexOf(Ids(Places(users)), CoordKey(users[a])))
    ensures BatchMember(users[a].name, users[a].batch)
      in Places(users)[IndexOf(Ids(Places(users)), CoordKey(users[a]))].users
  {
    PlacesOnePerKey(users);
    PlacesMembersByKey(users);
    MembersOfHolds(CoordKeys(users), BatchMembers(users), a);
  }

  /** Two records end up in the same feature exactly when their coordinate
      texts are equal: coordinates are compared as text, not as numbers,
      and records that merely share an area and city stay apart. */
  lemma SharePlaceIff(users: seq<User>, a: nat, b: nat)
    requires a < |users| && b < |users|
    requires ',' !in users[a].lat && ',' !in users[b].lat
    ensures IndexOf(Ids(Places(users)), CoordKey(users[a])) == IndexOf(Ids(Places(users)), CoordKey(users[b]))
        <==> users[a].lat == users[b].lat && users[a].lon == users[b].lon
  {
    SamePlaceIffSameKey(users, a, b);
    SameCoordKeyIff(users[a], users[b]);
  }

  /** Records appended to the listing never move or relabel an existing
      feature; they only add members at the end or add new features after
      the existing ones. */
  lemma PlacesPrefixStable(users: seq<User>, more: seq<User>)
    ensures |Places(users)| <= |Places(users + more)|
    ensures forall j :: 0 <= j < |Places(users)| ==>
      && Places(users + more)[j].id == Places(users)[j].id
      && Places(users + more)[j].coordinates == Places(users)[j].coordinates
      && Places(users + more)[j].location == Places(users)[j].location
      && Places(users)[j].users <= Places(users + more)[j].users
  {
    assert Entries(users + more) == Entries(users) + Entries(more);
    GroupByPrefixStable(Entries(users), Entries(more));
    var gs, gs' := GroupBy(Entries(users)), GroupBy(Entries(users + more));
    assert Extends(gs', gs);
    assert Places(users) == Features(gs) && Places(users + more) == Features(gs');
  }

  /** A listing of one person gives one feature holding that person. */
  lemma SingleRecord(u: User)
    ensures Places([u]) == [Feature([u.lon, u.lat], CoordKey(u), AreaCity(u), [BatchMember(u.name, u.batch)])]
  {
  }

  /** Records at one pair that are separated by a record elsewhere still
      share one feature: Asha at (12.9, 77.6), Meera at (28.6, 77.2) and
      Ravi at (12.9, 77.6) give Asha's feature, labelled with Asha's area,
      listing Asha then Ravi, followed by Meera's feature. */
  lemma ReturningPairJoinsFirstPlace(a: User, m: User, r: User)
    requires a.lat == r.lat && a.lon == r.lon
    requires a.lat != m.lat || a.lon != m.lon
    requires ',' !in a.lat && ',' !in m.lat
    ensures Places([a, m, r]) == [
      Feature([a.lon, a.lat], CoordKey(a), AreaCity(a),
              [BatchMember(a.name, a.batch), BatchMember(r.name, r.batch)]),
      Feature([m.lon, m.lat], CoordKey(m), AreaCity(m), [BatchMember(m.name, m.batch)])
    ]
  {
    SameCoordKeyIff(a, m);
    ReturningKeyJoinsFirstPlace(a, m, r);
  }

  /** The same case stated on the keys alone. */
  lemma ReturningKeyJoinsFirstPlace(a: User, m: User, r: User)
    requires CoordKey(a) == CoordKey(r) != CoordKey(m)
    ensures Places([a, m, r]) == [
      Feature([a.lon, a.lat], CoordKey(a), AreaCity(a),
              [BatchMember(a.name, a.batch), BatchMember(r.name, r.batch)]),
      Feature([m.lon, m.lat], CoordKey(m), AreaCity(m), [BatchMember(m.name, m.batch)])
    ]
  {
    EntriesOfThree(a, m, r);
    ReturningKeyJoinsFirstSlot(ToEntry(a), ToEntry(m), ToEntry(r));
    FeaturesOfTwo(GroupBy(Entries([a, m, r])));
  }

  /** Two groups give two features, in order. */
  lemma FeaturesOfTwo(gs: seq<Group<string, Spot, BatchMember>>)
    requires |gs| == 2
    ensures Features(gs) == [ToFeature(gs[0]), ToFeature(gs[1])]
  {
  }

  /** A three-record listing projects record by record. */
  lemma EntriesOfThree(a: User, m: User, r: User)
    ensures Entries([a, m, r]) == [ToEntry(a), ToEntry(m), ToEntry(r)]
  {
    var us := [a, m, r];
    var es := Entries(us);
    assert es[0] == ToEntry(us[0]) && es[1] == ToEntry(us[1]) && es[2] == ToEntry(us[2]);
  }
}
