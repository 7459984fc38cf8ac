# Campus Connections: map grouping and profile update, in Dafny

This project models three parts of the Campus Connections web client.

- **The desktop map** (`ClusterMap`). The listing of alumni profiles is grouped into point features by exact coordinate pair. The key is `${lat},${lon}`. Each feature takes its position and its `${area}, ${city}` label from the first record at the pair. It lists `{name, batch}` for every record at the pair.
- **The mobile dashboard map** (`MobileView`). The same listing is grouped by the `${area}, ${city}` label. Each feature takes its position from the first record with that label. It lists `{name, company}` for every record, and uses the label as both its id and its location.
- **The profile update page** (`UpdateProfile`). This covers:
  - the minimum-length rules of the seven form fields;
  - the prefill from the stored profile;
  - the submit step, which turns a validated form and the geocoder's first result into the update payload.

Both maps use the same `reduce` into an object, followed by `Object.entries`. Module `Grouping` models that fold once, generically, over records already projected to `(key, place, member)`.

The accumulator object is modelled as an association list in insertion order. This is exact for the keys the views build:
- Every key contains a comma, so no key is an integer-like property name. JavaScript would list such names first.
- No key is the name of a property inherited from `Object.prototype`. Such a name would make the `!acc[key]` test find a slot that was never created.

`Grouping.Describes` is a declarative reference for what the fold computes:
- one slot for each key that occurs, and for no other key;
- slots in the order their key first occurs;
- each slot's place taken from the first record with its key;
- each slot's members are those of the records with its key, in input order.

The view-level lemmas rest on four general results:
- `Grouping.GroupByDescribes`, the all-inputs theorem that the fold meets the reference description `Describes`. It gives the one-per-key, first-seen-order, first-record-wins and members-by-key lemmas of both views.
- `Grouping.GroupByKeepsEveryMember`, the permutation lemma. It gives `PlacesKeepEveryUser`.
- `Grouping.GroupByPrefixStable`. It gives `PlacesPrefixStable`.
- `MapData.JoinInjective`. It gives `SameCoordKeyIff` and `SameLabelIff`, and through them `SharePlaceIff`.

`ClusterMap.ReturningPairJoinsFirstPlace` and `MobileView.LabelCollision` are worked cases that hold for all records of the stated shape. The first unfolds the fold three steps (`Grouping.ReturningKeyJoinsFirstSlot`). The second unfolds it two steps (`Grouping.SharedKeyOneSlot`).

Modules:

| file | module | contents |
|---|---|---|
| `wrappers.dfy` | `Wrappers` | `Option` |
| `grouping.dfy` | `Grouping` | the generic fold, its reference description, permutation and prefix-stability lemmas |
| `map_data.dfy` | `MapData` | the user record, the point feature, the render gate shared by both maps |
| `cluster_map.dfy` | `ClusterMap` | the desktop grouping and its properties |
| `mobile_view.dfy` | `MobileView` | the mobile grouping and its properties |
| `update_profile.dfy` | `UpdateProfile` | validation, prefill, payload assembly, submit |

Two facts of the code are easy to miss:
- A desktop place is labelled `${area}, ${city}` (`components/Main/ClusterMap.tsx:100`), not by its city alone.
- Records with missing coordinates are not skipped. They are grouped under the text `undefined`, which is what `${user.lat}` prints for a missing value (`components/Main/ClusterMap.tsx:94`).

## Model

| member | source | states |
|---|---|---|
| Grouping.GroupBy | components/Main/ClusterMap.tsx:82-106 | The fold makes at most one slot per record, and no slots exactly when there are no records. |
| Grouping.Step | components/Main/ClusterMap.tsx:92-105 | One reduce step only extends: earlier slots keep their key and place, and members only grow. A known key leaves the key list unchanged, appends the record's member to the slot of its own key, and leaves every other slot unchanged. A new key appends one slot holding just this record. The members gain exactly this record. |
| Grouping.GroupByDescribes | components/Main/ClusterMap.tsx:92-110 | For every input, the fold satisfies the reference description. There is one slot per occurring key and no other. Slots are in first-occurrence order. The place comes from the first record with the key. The members are exactly that key's records, in input order. |
| Grouping.DescribedSlotsDistinct | components/Main/ClusterMap.tsx:95-97 | Any grouping that meets the description has pairwise distinct keys. A key's slot is created once and then reused. |
| Grouping.GroupByKeepsEveryMember | components/Main/ClusterMap.tsx:103 | The members of all slots are a permutation of the records' members. Nothing is dropped or duplicated. |
| Grouping.GroupByMemberCount | components/Main/ClusterMap.tsx:103 | The slots hold as many members in total as there are records. |
| Grouping.MembersOfHolds | components/Main/ClusterMap.tsx:103 | Every record's member is among the members listed under its own key. |
| Grouping.TwoFreshKeys | components/Main/ClusterMap.tsx:95-103 | Two records with different keys open one slot each, in input order, each holding its own record. |
| Grouping.SharedKeyOneSlot | components/Main/ClusterMap.tsx:95-103 | Two records with one key share one slot, whose place is the first record's and whose members are both records in input order. |
| Grouping.ReturningKeyJoinsFirstSlot | components/Main/ClusterMap.tsx:92-105 | When a key returns after another key, its record joins the first slot, after the first record. The other key's slot stays second. |
| Grouping.GroupByPrefixStable | components/Main/ClusterMap.tsx:95-103 | Folding more records keeps every earlier slot at its position with the same key and place. Its member list only grows at the end. |
| MapData.AreaCity | components/Main/ClusterMap.tsx:100 | The label is the area, then `", "`, then the city. When the area has no comma, splitting the label at its first comma and dropping the following space gives the area and the city back. |
| MapData.SplitJoin | components/Mobile/DashboardMobileView.tsx:91 | Splitting a text joined with a comma-led separator at its first comma gives both parts back when the first part has no comma. |
| MapData.FirstCommaIsSeparator | components/Main/ClusterMap.tsx:94 | When the first text has no comma, the first comma of a key joined with a comma-led separator is where the separator starts. |
| MapData.JoinInjective | components/Mobile/DashboardMobileView.tsx:91 | When the first texts have no comma, two keys joined with a comma-led separator are equal exactly when both parts are equal. |
| ClusterMap.CoordKey | components/Main/ClusterMap.tsx:94 | When the latitude text has no comma, splitting the key at its first comma gives the latitude and longitude texts back. |
| ClusterMap.ToFeature | components/Main/ClusterMap.tsx:110-121 | A group becomes a point feature with nothing lost: reading the feature back gives the same group (key as id, `[lon, lat]` order, location, members). |
| ClusterMap.FeatureRoundTrip | components/Main/ClusterMap.tsx:110-121 | A feature reads back as a group exactly when it has two coordinates. Such a feature is the image of that group. |
| ClusterMap.Places | components/Main/ClusterMap.tsx:80-123 | The desktop collection has at most one feature per record. It is empty exactly when the listing is empty. |
| ClusterMap.ShowsClusters | components/Main/ClusterMap.tsx:131 | The cluster layer is mounted exactly when loading has finished and the listing is non-empty. |
| ClusterMap.PlacesOnePerKey | components/Main/ClusterMap.tsx:94-117 | Every record's `${lat},${lon}` key is a feature id. Every feature id is some record's key. No two features share an id. |
| ClusterMap.PlacesInFirstSeenOrder | components/Main/ClusterMap.tsx:95-110 | Features are ordered by the first occurrence of their key in the listing. |
| ClusterMap.PlacesFirstRecordWins | components/Main/ClusterMap.tsx:95-118 | A feature's `[lon, lat]` coordinates and `${area}, ${city}` location are those of the first record with its key. |
| ClusterMap.PlacesMembersByKey | components/Main/ClusterMap.tsx:103-119 | A feature's users are the `{name, batch}` of exactly the records with its key, in input order. |
| ClusterMap.PlacesKeepEveryUser | components/Main/ClusterMap.tsx:92-105 | All features' users together are a permutation of the records' `{name, batch}`. Their number equals the listing length. |
| ClusterMap.SameCoordKeyIff | components/Main/ClusterMap.tsx:94 | When the latitude text has no comma, two records share a key exactly when their latitude and longitude texts are equal. |
| ClusterMap.RecordInItsPlace | components/Main/ClusterMap.tsx:94-119 | Each record lands in exactly one feature. That feature's id is the record's key, no other feature has that id, and the feature lists the record's `{name, batch}`. |
| ClusterMap.SamePlaceIffSameKey | components/Main/ClusterMap.tsx:94-110 | Two records fall into the same feature exactly when their keys are equal. |
| ClusterMap.SharePlaceIff | components/Main/ClusterMap.tsx:93-95 | Two records fall into the same feature exactly when both coordinates are equal as text. There is no tolerance, and a shared area and city does not merge them. |
| ClusterMap.PlacesPrefixStable | components/Main/ClusterMap.tsx:92-106 | Appending records never moves, re-keys, relocates or relabels an existing feature. Its users only grow at the end. |
| ClusterMap.SingleRecord | components/Main/ClusterMap.tsx:94-119 | One record gives exactly one feature, holding that record alone. |
| ClusterMap.ReturningPairJoinsFirstPlace | components/Main/ClusterMap.tsx:80-123 | In a listing A, M, R where A and R share a pair and M is at a different pair (either coordinate differs), R joins A's feature after A, and that feature keeps A's position and label. M's feature comes second. |
| ClusterMap.ReturningKeyJoinsFirstPlace | components/Main/ClusterMap.tsx:80-123 | The same listing stated on keys: when A and R share a key that M does not have, the collection is exactly A's feature listing A then R, followed by M's feature. |
| MobileView.ToFeature | components/Mobile/DashboardMobileView.tsx:101-112 | A group becomes a point feature whose location equals its id, with nothing lost: reading the feature back gives the same group. |
| MobileView.FeatureRoundTrip | components/Mobile/DashboardMobileView.tsx:101-112 | A feature reads back as a group exactly when it has two coordinates and its location equals its id. Such a feature is the image of that group. |
| MobileView.Places | components/Mobile/DashboardMobileView.tsx:84-114 | The mobile collection has at most one feature per record. It is empty exactly when the listing is empty. |
| MobileView.ShowsClusters | components/Mobile/DashboardMobileView.tsx:126 | The cluster layer is mounted exactly when loading has finished and the listing is non-empty. |
| MobileView.PlacesOnePerKey | components/Mobile/DashboardMobileView.tsx:91-109 | Every record's `${area}, ${city}` label is a feature id, and every id is some record's label. Ids are distinct. Each feature's location equals its id. |
| MobileView.PlacesInFirstSeenOrder | components/Mobile/DashboardMobileView.tsx:92-101 | Features are ordered by the first occurrence of their label in the listing. |
| MobileView.PlacesFirstRecordWins | components/Mobile/DashboardMobileView.tsx:92-105 | A feature's `[lon, lat]` is that of the first record with its label. Later records never overwrite it. |
| MobileView.PlacesMembersByKey | components/Mobile/DashboardMobileView.tsx:95-110 | A feature's users are the `{name, company}` of exactly the records with its label, in input order. |
| MobileView.PlacesKeepEveryUser | components/Mobile/DashboardMobileView.tsx:90-97 | All features' users together are a permutation of the records' `{name, company}`. Their number equals the listing length. |
| MobileView.RecordInItsPlace | components/Mobile/DashboardMobileView.tsx:91-110 | Each record lands in exactly one feature. That feature's id is the record's label, no other feature has that id, and the feature lists the record's `{name, company}`. |
| MobileView.SamePlaceIffSameLabel | components/Mobile/DashboardMobileView.tsx:91-92 | Two records fall into the same feature exactly when their labels are equal, whatever their coordinates. |
| MobileView.SameLabelIff | components/Mobile/DashboardMobileView.tsx:91 | When the area text has no comma, two records share a label exactly when area and city are both equal. |
| MobileView.LabelCollision | components/Mobile/DashboardMobileView.tsx:91-93 | Without that condition, an area `x, y` in city `z` and an area `x` in city `y, z` have different (area, city) pairs but the same label. The two records therefore make exactly one feature, listing both. |
| MobileView.SharedLabelOnePlace | components/Mobile/DashboardMobileView.tsx:90-110 | Two records with one label give exactly one feature, positioned by the first record, with the label as id and location, listing both records in input order. |
| MobileView.PlacesPrefixStable | components/Mobile/DashboardMobileView.tsx:90-97 | Appending records never moves, re-keys or repositions an existing feature. Its users only grow at the end. |
| UpdateProfile.Rank | app/UpdateProfile/page.tsx:41-49 | Each field has a position in the schema, and the schema lists it there. |
| UpdateProfile.SchemaListsEveryField | app/UpdateProfile/page.tsx:41-49 | The schema lists all seven fields, each exactly once, in declaration order. |
| UpdateProfile.Failing | app/UpdateProfile/page.tsx:41-49 | From an ordered list of fields, it keeps exactly those shorter than their minimum, keeping the order. |
| UpdateProfile.Errors | app/UpdateProfile/page.tsx:41-49 | A field is reported exactly when its value is shorter than its minimum. The minimum is 2 for company, role, area, city and college, 10 for contact, and 1 for batch. Errors come in schema order. |
| UpdateProfile.Valid | app/UpdateProfile/page.tsx:41-49 | A form passes validation exactly when no field is shorter than its minimum. |
| UpdateProfile.ValidIff | app/UpdateProfile/page.tsx:41-49 | A form is valid exactly when all seven length rules hold at once. |
| UpdateProfile.EmptyFormInvalid | app/UpdateProfile/page.tsx:41-49 | A form with every field empty fails every rule. |
| UpdateProfile.DefaultsInvalid | app/UpdateProfile/page.tsx:61-69 | The all-empty starting values fail every rule, so they cannot be submitted. |
| UpdateProfile.OrEmpty | app/UpdateProfile/page.tsx:84-92 | The empty-text fallback for a stored value is non-empty exactly when the stored value is present and non-empty, and then it is that value. |
| UpdateProfile.Prefill | app/UpdateProfile/page.tsx:74-92 | Without a signed-in email, or without response data, the form is unchanged. Otherwise each of the seven fields becomes its stored value, or `""` when that is missing. |
| UpdateProfile.PrefillValidIff | app/UpdateProfile/page.tsx:84-92 | A prefilled form is valid exactly when every stored field is present and long enough. |
| UpdateProfile.BuildUpdate | app/UpdateProfile/page.tsx:115-137 | A payload exists exactly when the first geocode result has a truthy `lat` and a truthy `lon`. It carries the seven form fields unchanged, the email as given (possibly missing), and that result's `lat` and `lon`. |
| UpdateProfile.Submit | app/UpdateProfile/page.tsx:111-137 | An invalid form is rejected with exactly its failing fields, and the handler never runs. A valid form without a usable first result yields "location not found". Otherwise the payload is sent. |
| UpdateProfile.OnlyFirstHitMatters | app/UpdateProfile/page.tsx:115-116 | The outcome depends only on the first geocoding result. |
| UpdateProfile.SubmitThenPrefill | app/UpdateProfile/page.tsx:84-137 | Prefilling from a stored payload gives back the submitted form exactly, and that form passes validation again. |

## Left out

- HTTP: the dashboard listing fetch, the profile fetch, the geocoding request and the update request are not modelled. The fetched listing, the fetched profile (`Option`, with `None` for no data or a failed request) and the geocoder's result list are inputs.
- The geocoding query (`${area}+${city}` with an API key) is not modelled, because the service is external. Its results are an input.
- The `catch` in `onSubmit` (`app/UpdateProfile/page.tsx:146-149`) is not modelled. It shows "Failed to update profile. Please try again." in three cases. The geocoding request may fail (lines 111-113). The geocoding response body may be null or undefined, so that `data[0]` throws before `?.` applies (lines 115-116). The update request may fail (lines 139-142). `Submit`'s `Sent` outcome means the payload handed to the update endpoint.
- UpdateProfile.Submit: `hits` is the array body of a successful geocoding response. No outcome stands for a failed geocoding request or a missing body; both end in the `catch` above.
- React state and effects are left out because they are framework plumbing. This covers `isLoading` (a parameter of `ShowsClusters`), `isSubmitting`, toasts, navigation to the dashboard, and the Clerk session (the email is an `Option` input).
- The map library's radius-based clustering, popups, click handlers and the `JSON.parse` of member lists are foreign library behaviour.
- Coordinates are numbers in the source but are modelled as the text that `${lat}` and `${lon}` print. Grouping compares exactly that text, so it is faithful to the code. Number formatting itself is left out.
  - JavaScript prints `-0` as `0` and every `NaN` as `NaN`, so those values group together although the numbers differ.
  - No number prints with a comma, so `SharePlaceIff`'s comma-free requirement always holds for numeric latitudes.
- Missing record fields (`undefined`) are left out, because the record is modelled with all fields present as text. A missing value would print as the text `undefined`.
- `GroupByDescribes`, `GroupByPrefixStable` and the view lemmas rest on the association-list reading of the accumulator object described above. They do not model JavaScript property enumeration for other key shapes.
- UpdateProfile.Errors: string length is the number of `char`s of a `seq<char>`. The schema's `.min(n)` counts UTF-16 code units, so the two differ for text outside the Basic Multilingual Plane.
- UpdateProfile.Errors: errors are reported as field names. The messages and the validation library's other behaviour are not modelled.
- UpdateProfile.Prefill: stored fields are text or missing. Non-text JSON values, and their JavaScript truthiness, are left out.
- UpdateProfile.BuildUpdate: the geocoder's `lat` and `lon` are text or missing, which is how that service returns them. Non-text values are left out.
- UpdateProfile.SubmitThenPrefill: the server's storage is not part of this model. The lemma assumes the stored profile holds the payload's fields as sent (`Saved`).
- The remaining pages and components (landing, profile view, sidebars, modals, cards, layout) are presentation only.
