/**
  The mobile dashboard map: records are grouped by their `${area}, ${city}`
  label. Each place takes its coordinates from the first record with that
  label, whatever the coordinates of later records, and lists
  `{name, company}` for every record with the label, in input order. The
  label is both the feature's id and its location.
*/
module MobileView {
  import opened Wrappers
  import opened MapData
  import opened Grouping

  /** A member of a mobile place. */
  datatype CompanyMember = CompanyMember(name: string, company: string)

  /** What a new place copies from the first record with its label. */
  datatype Coords = Coords(lat: Token, lon: Token)

  function ToEntry(u: User): Entry<string, Coords, CompanyMember> {
    Entry(AreaCity(u), Coords(u.lat, u.lon), CompanyMember(u.name, u.company))
  }

  function Entries(users: seq<User>): (es: seq<Entry<string, Coords, CompanyMember>>)
    ensures |es| == |users|
    ensures forall i :: 0 <= i < |users| ==> es[i] == ToEntry(users[i])
  {
    seq(|users|, i requires 0 <= i < |users| => ToEntry(users[i]))
  }

  /** The label of every record, in input order. */
  function AreaKeys(users: seq<User>): (ks: seq<string>)
    ensures |ks| == |users|
    ensures forall i :: 0 <= i < |users| ==> ks[i] == AreaCity(users[i])
  {
    seq(|users|, i requires 0 <= i < |users| => AreaCity(users[i]))
  }

  /** The member every record contributes, in input order. */
  function CompanyMembers(users: seq<User>): (ms: seq<CompanyMember>)
    ensures |ms| == |users|
    ensures forall i :: 0 <= i < |users| ==> ms[i] == CompanyMember(users[i].name, users[i].company)
  {
    seq(|users|, i requires 0 <= i < |users| => CompanyMember(users[i].name, users[i].company))
  }

  /** One `Object.entries` pair turned into a feature: the label serves as
      both id and location; GeoJSON puts the longitude first. Nothing is
      lost: the feature gives its group back. */
  function ToFeature(g: Group<string, Coords, CompanyMember>): (f: Feature<CompanyMember>)
    ensures f.location == f.id
    ensures ToGroup(f) == Some(g)
  {
    Feature([g.place.lon, g.place.lat], g.key, g.key, g.members)
  }

  /** Reads a feature back as a group; only a point with two coordinates,
      longitude first, whose location repeats its id can be one. */
  function ToGroup(f: Feature<CompanyMember>): Option<Group<string, Coords, CompanyMember>> {
    if |f.coordinates| == 2 && f.location == f.id
    then Some(Group(f.id, Coords(f.coordinates[1], f.coordinates[0]), f.users))
    else None
  }

  /** Every feature of that shape is the image of the group it reads as. */
  lemma FeatureRoundTrip(f: Feature<CompanyMember>)
    ensures ToGroup(f).Some? <==> |f.coordinates| == 2 && f.location == f.id
    ensures ToGroup(f).Some? ==> ToFeature(ToGroup(f).value) == f
  {
    if |f.coordinates| == 2 {
      assert [f.coordinates[0], f.coordinates[1]] == f.coordinates;
    }
  }

  function Features(gs: seq<Group<string, Coords, CompanyMember>>): (fs: seq<Feature<CompanyMember>>)
    ensures |fs| == |gs|
    ensures forall j :: 0 <= j < |gs| ==> fs[j] == ToFeature(gs[j])
  {
    seq(|gs|, j requires 0 <= j < |gs| => ToFeature(gs[j]))
  }

  /** The feature collection the mobile view builds from the listing. */
  function Places(users: seq<User>): (fs: seq<Feature<CompanyMember>>)
    ensures |fs| <= |users|
    ensures |fs| == 0 <==> |users| == 0
  {
    Features(GroupBy(Entries(users)))
  }

  /** Whether the mobile view mounts its cluster layer. */
  function ShowsClusters(isLoading: bool, users: seq<User>): (shown: bool)
    ensures shown <==> !isLoading && |users| > 0
  {
    ClusterLayerShown(isLoading, Places(users))
  }

  // ---------------------------------------------------------------------
  // Connecting the view to the generic fold
  // ---------------------------------------------------------------------

  lemma EntriesProject(users: seq<User>)
    ensures Keys(Entries(users)) == AreaKeys(users)
    ensures Members(Entries(users)) == CompanyMembers(users)
  {
  }

  lemma PlacesDescribed(users: seq<User>)
    ensures Keys(Entries(users)) == AreaKeys(users)
    ensures Members(Entries(users)) == CompanyMembers(users)
    ensures Ids(Places(users)) == SlotKeys(GroupBy(Entries(users)))
    ensures Describes(GroupBy(Entries(users)), Entries(users))
  {
    EntriesProject(users);
    GroupByDescribes(Entries(users));
  }

  lemma {:induction false} AllUsersOfFeatures(gs: seq<Group<string, Coords, CompanyMember>>)
    ensures AllUsers(Features(gs)) == Flatten(gs)
  {
    if |gs| > 0 {
      assert Features(gs)[1..] == Features(gs[1..]);
      AllUsersOfFeatures(gs[1..]);
    }
  }

  // ---------------------------------------------------------------------
  // What the collection says about the listing
  // ---------------------------------------------------------------------

  /** There is one feature per distinct label: every record's label is the
      id of a feature, every feature id is some record's label, no two
      features share an id, and each feature's location is its id. */
  lemma PlacesOnePerKey(users: seq<User>)
    ensures forall i :: 0 <= i < |users| ==> AreaCity(users[i]) in Ids(Places(users))
    ensures forall j :: 0 <= j < |Places(users)| ==> Places(users)[j].id in AreaKeys(users)
    ensures forall i, j :: 0 <= i < j < |Places(users)| ==> Places(users)[i].id != Places(users)[j].id
    ensures forall j :: 0 <= j < |Places(users)| ==> Places(users)[j].location == Places(users)[j].id
  {
    var es := Entries(users);
    var gs, fs, ks := GroupBy(es), Places(users), AreaKeys(users);
    PlacesDescribed(users);
    DescribedSlotsDistinct(gs, es);
    assert fs == Features(gs) && Ids(fs) == SlotKeys(gs) && Keys(es) == ks;
    assert SameKeys(ks, SlotKeys(gs));
    forall i | 0 <= i < |users| ensures AreaCity(users[i]) in Ids(fs) {
      assert ks[i] == AreaCity(users[i]);
    }
    forall j | 0 <= j < |fs| ensures fs[j].id == gs[j].key && fs[j].location == fs[j].id {
      assert fs[j] == ToFeature(gs[j]);
    }
  }

  /** Features appear in the order in which their label first occurs in the
      listing. */
  lemma PlacesInFirstSeenOrder(users: seq<User>)
    ensures forall i, j :: 0 <= i < j < |Places(users)| ==>
      IndexOf(AreaKeys(users), Places(users)[i].id) < IndexOf(AreaKeys(users), Places(users)[j].id)
  {
    PlacesDescribed(users);
  }

  /** A feature's position is the `[lon, lat]` of the first record with its
      label; later records with the label never overwrite it. */
  lemma PlacesFirstRecordWins(users: seq<User>)
    ensures forall j :: 0 <= j < |Places(users)| ==>
      && Places(users)[j].id in AreaKeys(users)
      && var u := users[IndexOf(AreaKeys(users), Places(users)[j].id)];
         Places(users)[j].coordinates == [u.lon, u.lat]
  {
    PlacesDescribed(users);
  }

  /** A feature lists `{name, company}` of exactly the records with its
      label, in input order, duplicates included. */
  lemma PlacesMembersByKey(users: seq<User>)
    ensures forall j :: 0 <= j < |Places(users)| ==>
      Places(users)[j].users == MembersOf(AreaKeys(users), CompanyMembers(users), Places(users)[j].id)
  {
    PlacesDescribed(users);
  }

  /** No record is dropped or counted twice: the members of all features
      are the records' members, rearranged. */
  lemma PlacesKeepEveryUser(users: seq<User>)
    ensures multiset(AllUsers(Places(users))) == multiset(CompanyMembers(users))
    ensures |AllUsers(Places(users))| == |users|
  {
    AllUsersOfFeatures(GroupBy(Entries(users)));
    GroupByKeepsEveryMember(Entries(users));
    GroupByMemberCount(Entries(users));
    EntriesProject(users);
  }

  /** Each record lands in exactly one feature: the one whose id is its
      label, found at the first position holding that id, and that feature
      lists the record's member. */
  lemma RecordInItsPlace(users: seq<User>, a: nat)
    requires a < |users|
    ensures IndexOf(Ids(Places(users)), AreaCity(users[a])) < |Places(users)|
    ensures forall j :: 0 <= j < |Places(users)| ==>
      (Places(users)[j].id == AreaCity(users[a]) <==> j == IndexOf(Ids(Places(users)), AreaCity(users[a])))
    ensures CompanyMember(users[a].name, users[a].company)
      in Places(users)[IndexOf(Ids(Places(users)), AreaCity(users[a]))].users
  {
    PlacesOnePerKey(users);
    PlacesMembersByKey(users);
    MembersOfHolds(AreaKeys(users), CompanyMembers(users), a);
  }

  /** Two records end up in the same feature exactly when their labels are
      equal; their coordinates play no part. */
  lemma SamePlaceIffSameLabel(users: seq<User>, a: nat, b: nat)
    requires a < |users| && b < |users|
    ensures IndexOf(Ids(Places(users)), AreaCity(users[a])) == IndexOf(Ids(Places(users)), AreaCity(users[b]))
        <==> AreaCity(users[a]) == AreaCity(users[b])
  {
    PlacesOnePerKey(users);
  }

  /** When the area text contains no comma, two records share a label
      exactly when both their areas and their cities are equal. */
  lemma SameLabelIff(u: User, v: User)
    requires ',' !in u.area && ',' !in v.area
    ensures AreaCity(u) == AreaCity(v) <==> u.area == v.area && u.city == v.city
  {
    JoinInjective(u.area, u.city, v.area, v.city, ", ");
  }

  /** Without that condition the label is ambiguous: an area "x, y" in
      city "z" and an area "x" in city "y, z" (say "Sector 5, Salt Lake" in
      "Kolkata" and "Sector 5" in "Salt Lake, Kolkata") build the same
      label, so the two records share one feature. */
  lemma LabelCollision(u: User, v: User, x: string, y: string, z: string)
    requires u.area == x + ", " + y && u.city == z
    requires v.area == x && v.city == y + ", " + z
    ensures (u.area, u.city) != (v.area, v.city)
    ensures AreaCity(u) == AreaCity(v)
    ensures Places([u, v]) == [Feature([u.lon, u.lat], AreaCity(u), AreaCity(u),
      [CompanyMember(u.name, u.company), CompanyMember(v.name, v.company)])]
  {
    assert |u.area| == |x| + 2 + |y| > |v.area|;
    var t := x + ", " + y + ", " + z;
    assert AreaCity(u) == (x + ", " + y) + ", " + z == t;
    assert AreaCity(v) == x + ", " + (y + ", " + z) == t;
    SharedLabelOnePlace(u, v);
  }

  /** Two records with one label give one feature, placed by the first and
      listing both. */
  lemma SharedLabelOnePlace(u: User, v: User)
    requires AreaCity(u) == AreaCity(v)
    ensures Places([u, v]) == [Feature([u.lon, u.lat], AreaCity(u), AreaCity(u),
      [CompanyMember(u.name, u.company), CompanyMember(v.name, v.company)])]
  {
    var us := [u, v];
    var es := Entries(us);
    assert es[0] == ToEntry(us[0]) && es[1] == ToEntry(us[1]);
    assert es == [ToEntry(u), ToEntry(v)];
    SharedKeyOneSlot(ToEntry(u), ToEntry(v));
    var gs := GroupBy(es);
    assert |gs| == 1 && Features(gs)[0] == ToFeature(gs[0]);
  }

  /** Records appended to the listing never move or relabel an existing
      feature; they only add members at the end or add new features after
      the existing ones. */
  lemma PlacesPrefixStable(users: seq<User>, more: seq<User>)
    ensures |Places(users)| <= |Places(users + more)|
    ensures forall j :: 0 <= j < |Places(users)| ==>
      && Places(users + more)[j].id == Places(users)[j].id
      && Places(users + more)[j].coordinates == Places(users)[j].coordinates
      && Places(users)[j].users <= Places(users + more)[j].users
  {
    assert Entries(users + more) == Entries(users) + Entries(more);
    GroupByPrefixStable(Entries(users), Entries(more));
    var gs, gs' := GroupBy(Entries(users)), GroupBy(Entries(users + more));
    assert Extends(gs', gs);
    assert Places(users) == Features(gs) && Places(users + more) == Features(gs');
  }
}
