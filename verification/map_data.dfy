/**
  The data both map views share: the user record the dashboard endpoint
  returns, and the GeoJSON point feature each view hands to the cluster
  layer.
*/
module MapData {
  import opened Grouping

  /** A latitude or longitude as the profile API delivers it. The views only
      interpolate coordinates into strings and copy them into features, so
      they are modelled as opaque text. */
  type Token = string

  /** One entry of the dashboard listing (`UserData` in both views). */
  datatype User = User(
    id: string,
    name: string,
    company: string,
    role: string,
    city: string,
    area: string,
    lon: Token,
    lat: Token,
    contact: string,
    batch: string,
    college: string
  )

  /** The `${area}, ${city}` label both views build. Splitting it at its
      first comma gives the area and the city back whenever the area has no
      comma of its own. */
  function AreaCity(u: User): (text: string)
    ensures |text| == |u.area| + 2 + |u.city| && text[|u.area|..|u.area| + 2] == ", "
    ensures ',' !in u.area ==> SplitAtComma(text, 2) == (u.area, u.city)
  {
    SplitJoin(u.area, ", ", u.city);
    u.area + ", " + u.city
  }

  /** A point feature: `coordinates` is the GeoJSON position, longitude
      first; `id`, `location` and `users` are its properties. */
  datatype Feature<U> = Feature(coordinates: seq<Token>, id: string, location: string, users: seq<U>)

  /** The `id` of every feature, in feature order. */
  function Ids<U>(fs: seq<Feature<U>>): (ids: seq<string>)
    ensures |ids| == |fs|
    ensures forall j :: 0 <= j < |fs| ==> ids[j] == fs[j].id
  {
    seq(|fs|, j requires 0 <= j < |fs| => fs[j].id)
  }

  /** Every member of every feature, feature by feature. */
  function AllUsers<U>(fs: seq<Feature<U>>): seq<U>
  {
    if |fs| == 0 then [] else fs[0].users + AllUsers(fs[1..])
  }

  /** The cluster layer is mounted only when loading has finished and the
      collection has at least one feature. */
  predicate ClusterLayerShown<U>(isLoading: bool, fs: seq<Feature<U>>) {
    !isLoading && |fs| > 0
  }

  /** When `x` has no comma and the separator starts with one, the first
      comma of `x + sep + y` is where the separator starts. */
  lemma FirstCommaIsSeparator(x: string, sep: string, y: string)
    requires ',' !in x
    requires |sep| > 0 && sep[0] == ','
    ensures IndexOf(x + sep + y, ',') == |x|
  {
    var s := x + sep + y;
    assert s[|x|] == ',';
    assert forall j :: 0 <= j < |x| ==> s[j] == x[j];
  }

  /** The text before the first comma, and the text after the `width`
      characters of separator that start there; the whole text and nothing
      when no separator fits. */
  function SplitAtComma(s: string, width: nat): (string, string)
  {
    var i := IndexOf(s, ',');
    if i + width <= |s| then (s[..i], s[i + width..]) else (s, "")
  }

  /** Splitting undoes joining with a separator that starts with a comma,
      provided the first text has no comma. */
  lemma SplitJoin(x: string, sep: string, y: string)
    requires |sep| > 0 && sep[0] == ','
    ensures ',' !in x ==> SplitAtComma(x + sep + y, |sep|) == (x, y)
  {
    if ',' !in x {
      FirstCommaIsSeparator(x, sep, y);
      var s := x + sep + y;
      assert s[..|x|] == x && s[|x| + |sep|..] == y;
    }
  }

  /** Joining two texts with a separator that starts with a comma can be
      undone when the first text has no comma. */
  lemma JoinInjective(x: string, y: string, x': string, y': string, sep: string)
    requires ',' !in x && ',' !in x'
    requires |sep| > 0 && sep[0] == ','
    ensures x + sep + y == x' + sep + y' <==> x == x' && y == y'
  {
    SplitJoin(x, sep, y);
    SplitJoin(x', sep, y');
  }
}
