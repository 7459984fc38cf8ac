/**
  The profile update page: seven text fields with minimum lengths, a
  prefill from the stored profile, and a submit step that geocodes the area
  and city and assembles the update payload. The HTTP calls are not
  modelled; the fetched profile and the geocoder's result list are inputs.
*/
module UpdateProfile {
  import opened Wrappers

  /** The form values, all text. */
  datatype Form = Form(
    company: string,
    role: string,
    area: string,
    city: string,
    contact: string,
    college: string,
    batch: string
  )

  /** The form fields, in the order the schema declares them. */
  datatype Field = Company | Role | Area | City | Contact | College | Batch

  const Schema: seq<Field> := [Company, Role, Area, City, Contact, College, Batch]

  /** The value a field holds. */
  function Value(f: Form, x: Field): string {
    match x
    case Company => f.company
    case Role => f.role
    case Area => f.area
    case City => f.city
    case Contact => f.contact
    case College => f.college
    case Batch => f.batch
  }

  /** The position of a field in the schema. */
  function Rank(x: Field): (r: nat)
    ensures r < |Schema| && Schema[r] == x
  {
    match x
    case Company => 0
    case Role => 1
    case Area => 2
    case City => 3
    case Contact => 4
    case College => 5
    case Batch => 6
  }

  /** The minimum length the schema sets for a field. */
  function MinLength(x: Field): nat {
    match x
    case Contact => 10
    case Batch => 1
    case _ => 2
  }

  /** The field fails its rule: its value is shorter than its minimum. */
  predicate TooShort(f: Form, x: Field) {
    |Value(f, x)| < MinLength(x)
  }

  /** Fields listed in strictly increasing schema order. */
  predicate InSchemaOrder(xs: seq<Field>) {
    forall i, j :: 0 <= i < j < |xs| ==> Rank(xs[i]) < Rank(xs[j])
  }

  /** The fields of `fields` that fail their rule, in the order given. */
  function Failing(f: Form, fields: seq<Field>): (errs: seq<Field>)
    requires InSchemaOrder(fields)
    ensures forall x :: x in errs <==> x in fields && TooShort(f, x)
    ensures InSchemaOrder(errs)
    ensures |fields| > 0 ==> forall k :: 0 <= k < |errs| ==> Rank(fields[0]) <= Rank(errs[k])
  {
    if |fields| == 0 then []
    else
      var rest := Failing(f, fields[1..]);
      assert |fields| > 1 ==> Rank(fields[0]) < Rank(fields[1]);
      (if TooShort(f, fields[0]) then [fields[0]] else []) + rest
  }

  /** Every field occurs in the schema, at its rank. */
  lemma SchemaListsEveryField()
    ensures InSchemaOrder(Schema)
    ensures forall x :: x in Schema
  {
    assert forall i :: 0 <= i < |Schema| ==> Rank(Schema[i]) == i;
    forall x ensures x in Schema {
      assert Schema[Rank(x)] == x;
    }
  }

  /** The validation errors of a form, one per failing field, in schema
      order. */
  function Errors(f: Form): (errs: seq<Field>)
    ensures forall x :: x in errs <==> TooShort(f, x)
    ensures InSchemaOrder(errs)
  {
    SchemaListsEveryField();
    Failing(f, Schema)
  }

  /** The form passes validation: the resolver reports no error, which
      happens exactly when no field is too short. */
  function Valid(f: Form): (ok: bool)
    ensures ok <==> forall x :: !TooShort(f, x)
  {
    var errs := Errors(f);
    assert |errs| > 0 ==> TooShort(f, errs[0]);
    |errs| == 0
  }

  /** A form is valid exactly when each of the seven rules holds. */
  lemma ValidIff(f: Form)
    ensures Valid(f) <==>
      && |f.company| >= 2
      && |f.role| >= 2
      && |f.area| >= 2
      && |f.city| >= 2
      && |f.contact| >= 10
      && |f.college| >= 2
      && |f.batch| >= 1
  {
    var e := Errors(f);
    if |e| > 0 {
      assert TooShort(f, e[0]);
    }
    assert TooShort(f, Company) ==> Company in e;
    assert TooShort(f, Role) ==> Role in e;
    assert TooShort(f, Area) ==> Area in e;
    assert TooShort(f, City) ==> City in e;
    assert TooShort(f, Contact) ==> Contact in e;
    assert TooShort(f, College) ==> College in e;
    assert TooShort(f, Batch) ==> Batch in e;
  }

  /** The values the form starts with. */
  const Defaults := Form("", "", "", "", "", "", "")

  /** A form whose fields are all empty fails every rule. */
  lemma EmptyFormInvalid(f: Form)
    requires forall x :: Value(f, x) == ""
    ensures forall x :: x in Errors(f)
    ensures !Valid(f)
  {
  }

  /** The starting form is all empty, so it cannot be submitted as is. */
  lemma DefaultsInvalid()
    ensures forall x :: x in Errors(Defaults)
    ensures !Valid(Defaults)
  {
    EmptyFormInvalid(Defaults);
  }

  // ---------------------------------------------------------------------
  // Prefill from the stored profile
  // ---------------------------------------------------------------------

  /** JavaScript truthiness of a text value that may be missing: present
      and non-empty. */
  predicate Truthy(v: Option<string>) {
    v.Some? && v.value != ""
  }

  /** `v || ""`: the text, or the empty text when it is missing. */
  function OrEmpty(v: Option<string>): (s: string)
    ensures s != "" <==> Truthy(v)
    ensures Truthy(v) ==> v == Some(s)
  {
    v.GetOr("")
  }

  /** The stored profile as the profile endpoint returns it; a field the
      record lacks is `None`. */
  datatype Profile = Profile(
    company: Option<string>,
    role: Option<string>,
    area: Option<string>,
    city: Option<string>,
    contact: Option<string>,
    college: Option<string>,
    batch: Option<string>
  )

  /** The stored value of a field. */
  function Stored(p: Profile, x: Field): Option<string> {
    match x
    case Company => p.company
    case Role => p.role
    case Area => p.area
    case City => p.city
    case Contact => p.contact
    case College => p.college
    case Batch => p.batch
  }

  /** The form after the page has loaded. Without a signed-in email the
      profile is never requested, and a missing or failed response leaves
      the form as it was; otherwise every field is replaced by the stored
      value, or by the empty text when the stored value is missing. */
  function Prefill(current: Form, email: Option<string>, response: Option<Profile>): (f: Form)
    ensures !Truthy(email) || response.None? ==> f == current
    ensures Truthy(email) && response.Some? ==>
      forall x :: Value(f, x) == OrEmpty(Stored(response.value, x))
  {
    if !Truthy(email) then current
    else
      match response
      case None => current
      case Some(p) =>
        Form(OrEmpty(p.company), OrEmpty(p.role), OrEmpty(p.area), OrEmpty(p.city),
             OrEmpty(p.contact), OrEmpty(p.college), OrEmpty(p.batch))
  }

  /** A prefilled form passes validation exactly when every stored field is
      present and long enough; a missing field becomes empty and fails. */
  lemma PrefillValidIff(current: Form, email: Option<string>, p: Profile)
    requires Truthy(email)
    ensures Valid(Prefill(current, email, Some(p))) <==>
      forall x :: Stored(p, x).Some? && |Stored(p, x).value| >= MinLength(x)
  {
    var f := Prefill(current, email, Some(p));
    if !Valid(f) {
      var x := Errors(f)[0];
      assert TooShort(f, x);
      assert !(Stored(p, x).Some? && |Stored(p, x).value| >= MinLength(x));
    } else {
      forall x ensures Stored(p, x).Some? && |Stored(p, x).value| >= MinLength(x) {
        assert x !in Errors(f);
        assert |OrEmpty(Stored(p, x))| >= MinLength(x) >= 1;
      }
    }
  }

  // ---------------------------------------------------------------------
  // Submitting
  // ---------------------------------------------------------------------

  /** One result of the geocoding search; `lat` and `lon` as the service
      returns them, possibly missing. */
  datatype GeoHit = GeoHit(lat: Option<string>, lon: Option<string>)

  /** The update payload. `email` is missing when no one is signed in. */
  datatype Update = Update(
    email: Option<string>,
    company: string,
    role: string,
    area: string,
    city: string,
    lon: string,
    lat: string,
    contact: string,
    batch: string,
    college: string
  )

  /** The seven form fields a payload carries. */
  function FormOf(u: Update): Form {
    Form(u.company, u.role, u.area, u.city, u.contact, u.college, u.batch)
  }

  /** The payload for a validated form, or `None` when the geocoder gave no
      first result with both a latitude and a longitude. */
  function BuildUpdate(f: Form, email: Option<string>, hits: seq<GeoHit>): (r: Option<Update>)
    ensures r.Some? <==> |hits| > 0 && Truthy(hits[0].lat) && Truthy(hits[0].lon)
    ensures r.Some? ==>
      && FormOf(r.value) == f
      && r.value.email == email
      && hits[0].lat == Some(r.value.lat)
      && hits[0].lon == Some(r.value.lon)
  {
    if |hits| == 0 || !Truthy(hits[0].lat) || !Truthy(hits[0].lon) then None
    else
      Some(Update(email, f.company, f.role, f.area, f.city, hits[0].lon.value, hits[0].lat.value,
                  f.contact, f.batch, f.college))
  }

  /** What a press of the save button leads to. */
  datatype Outcome =
    | Rejected(errors: seq<Field>)  // validation failed; the handler never runs
    | NotFound                      // the location could not be geocoded
    | Sent(update: Update)          // the payload sent to the update endpoint

  /** The submit handler behind validation: an invalid form is rejected
      with its errors, otherwise the payload is built from the geocoder's
      results. */
  function Submit(f: Form, email: Option<string>, hits: seq<GeoHit>): (o: Outcome)
    ensures o.Rejected? <==> !Valid(f)
    ensures o.Rejected? ==> |o.errors| > 0 && forall x :: x in o.errors <==> TooShort(f, x)
    ensures o.NotFound? <==> Valid(f) && !(|hits| > 0 && Truthy(hits[0].lat) && Truthy(hits[0].lon))
    ensures o.Sent? ==>
      && Valid(f)
      && FormOf(o.update) == f
      && o.update.email == email
      && hits[0].lat == Some(o.update.lat)
      && hits[0].lon == Some(o.update.lon)
  {
    if !Valid(f) then Rejected(Errors(f))
    else
      match BuildUpdate(f, email, hits)
      case None => NotFound
      case Some(u) => Sent(u)
  }

  /** Only the first geocoding result is consulted. */
  lemma OnlyFirstHitMatters(f: Form, email: Option<string>, hits: seq<GeoHit>, more: seq<GeoHit>)
    requires |hits| > 0
    ensures Submit(f, email, hits) == Submit(f, email, hits[..1] + more)
  {
  }

  /** The profile the update endpoint stores from a payload. */
  function Saved(u: Update): (p: Profile)
    ensures forall x :: Stored(p, x) == Some(Value(FormOf(u), x))
  {
    Profile(Some(u.company), Some(u.role), Some(u.area), Some(u.city),
            Some(u.contact), Some(u.college), Some(u.batch))
  }

  /** Saving and loading again gives the submitted form back: prefilling
      from the stored payload restores every field, and the restored form
      is valid again. */
  lemma SubmitThenPrefill(f: Form, email: Option<string>, hits: seq<GeoHit>, current: Form)
    requires Truthy(email)
    requires Submit(f, email, hits).Sent?
    ensures Prefill(current, email, Some(Saved(Submit(f, email, hits).update))) == f
    ensures Valid(Prefill(current, email, Some(Saved(Submit(f, email, hits).update))))
  {
  }
}
