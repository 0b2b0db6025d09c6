# Representative lookup: the data-shaping logic, modelled in Dafny

The page looks up the elected officials for a street address through the
Cicero lookup service and shows them as cards grouped by government level.
This project models the logic in `src/App.jsx` that shapes that data:

- **Levels.dfy** models `groupByLevel`. A chain of substring tests files each
  official under local, county, state, federal or other. The district type is
  tested case-sensitively and the title after lower-casing. The non-empty
  buckets come out in that fixed order. `GroupByLevel` is the single pass that
  fills one list per level. `Grouped` is its specification, and the lemmas
  prove the partition, order, size and first-match-wins properties of it.
- **Socials.dfy** models `getSocialLinks`, the pass over an official's
  identifiers that builds Twitter, Facebook, Instagram and YouTube links.
  Facebook and Instagram links are added only while none of that platform is
  present. `GetSocialLinks` and `FindPlatform` are the loops; `Links` is
  their specification.
- **Extract.dfy** models the per-official accessors: the display name, the
  party class and badge, and the first photo, website, phone and email.
- **Lookup.dfy** models `fetchReps`. `Resolve` is how one reply of the
  service becomes officials or an error message. `RepLookup` is the page
  state with `address`, `reps`, `error`, `loading` and `normalizedAddress`.
  The request itself is an input of `FetchReps`.
- **Text.dfy** and **Records.dfy** hold the JavaScript string operations used
  (`includes`, `startsWith`, ASCII `toLowerCase`/`toUpperCase`, `trim`,
  `join`) and the record shapes. Every field the service may omit is an
  `Option`, except an identifier's value (see "Left out"). `Truthy` and `OrEmpty` are JavaScript's `x || null` and
  `x || ''`.

The checks of a reply run in the order of the code. The HTTP status is tested
before the errors the reply itself reports (src/App.jsx:96-98), so a failed
status always yields the generic "Could not find representatives" message,
even when the reply explains the failure. `Lookup.StatusBeatsErrors` states
this.

## Model

| member | source | states |
|---|---|---|
| `Levels.LevelOfIsFirstMatch` | src/App.jsx:163-178 | the level is that of the first rule in the order local, county, state, federal whose district keyword or title keywords match; it is other exactly when no rule matches |
| `Levels.LocalDistrictWins` | src/App.jsx:166-167 | a district type containing "LOCAL" gives local whatever the title is |
| `Levels.CountyTitleBeatsStateDistrict` | src/App.jsx:168-171 | a title containing "county" or "sheriff" gives county even when the district type names STATE |
| `Levels.MissingFieldsAreOther` | src/App.jsx:163-164 | an official with no office, or whose office lacks both title and district type (no district record or one without a type), reads both as empty strings and is other |
| `Levels.MissingFieldReadsEmpty` | src/App.jsx:163-164 | a missing title classifies exactly as an empty title, and a district record without a type exactly as one with an empty type |
| `Levels.CaseAsymmetry` | src/App.jsx:163-166 | the district type is compared case-sensitively: "local" is not local, "LOCAL" is |
| `Levels.SheriffTitleIsCounty` | src/App.jsx:164-168 | the title is lower-cased before the tests: an office titled "County Sheriff" is county |
| `Levels.Members` | src/App.jsx:180 | a level's bucket holds only input officials of that level and is never longer than the input |
| `Levels.MembersAppend` | src/App.jsx:162-181 | bucketing a concatenation is the concatenation of the buckets, so input order is kept within every bucket |
| `Levels.MembersComplete` | src/App.jsx:162-181 | every input official is in the bucket of its own level |
| `Levels.MembersCount` | src/App.jsx:162-181 | an official occurs in its level's bucket exactly as often as in the input |
| `Levels.MembersSizes` | src/App.jsx:162-181 | the five bucket sizes sum to the input length |
| `Levels.GroupedContents` | src/App.jsx:184-186 | every returned bucket is non-empty, carries its level's display name, and holds exactly that level's officials in input order |
| `Levels.GroupedOrdered` | src/App.jsx:184-186 | the returned levels strictly follow local, county, state, federal, other, so they form a subsequence of it without repeats |
| `Levels.GroupedLevels` | src/App.jsx:184-186 | a level is returned exactly when some official is filed under it |
| `Levels.GroupedSizes` | src/App.jsx:153-187 | the sizes of the returned buckets sum to the number of officials |
| `Levels.OfficialInOneBucket` | src/App.jsx:153-187 | each input official is in a returned bucket of its own level, as many times as in the input, and in no other returned bucket: any two buckets holding it are the same |
| `Levels.GroupByLevel` | src/App.jsx:153-187 | the loop that pushes each official onto the list of its level and then keeps the non-empty lists in level order returns the specified grouping |
| `Extract.OfficialNameWords` | src/App.jsx:189-195 | for space-free name parts the displayed name splits back into first name, middle initial if present, last name and suffix if present |
| `Extract.OfficialNameExamples` | src/App.jsx:189-195 | Jane/Doe reads "Jane Doe", Jane/Q/Doe/III reads "Jane Q Doe III", an empty middle initial is skipped, a missing first name leaves a leading space |
| `Extract.PartyStyleOf` | src/App.jsx:133-151 | unknown exactly for an absent or empty party; otherwise the first of democrat, republican, libertarian, green that the lower-cased party contains, and other when it contains none |
| `Extract.PartyClass` | src/App.jsx:133-141 | the card class always starts with "party-" and is "party-unknown" exactly for an absent or empty party |
| `Extract.PartyEmoji` | src/App.jsx:143-151 | the badge is the shrug exactly for an absent or empty party |
| `Extract.PartyClassMatchesEmoji` | src/App.jsx:133-151 | two parties get the same card class exactly when they get the same badge (both are injective tables over the one shared party decision) |
| `Extract.PhotoUrl` | src/App.jsx:197-199 | the photo URL is present exactly when the field is present and not empty, and is then that field |
| `Extract.WebsiteUrl` | src/App.jsx:201-206 | the website is present exactly when the URL list is present and non-empty, and is then its first entry |
| `Extract.Phone` | src/App.jsx:208-213 | the phone is present exactly when the first address has a non-empty phone, and is then that phone |
| `Extract.Email` | src/App.jsx:215-220 | the email is present exactly when the email list is present and non-empty, and is then its first entry |
| `Socials.FacebookUrl` | src/App.jsx:230-231 | the Facebook address always starts with "http", ends with the identifier value, and equals the value exactly when the value starts with "http" |
| `Socials.NewLink` | src/App.jsx:226-237 | a link's URL is the platform prefix plus the value (the Facebook rule for Facebook); a Facebook or Instagram link is added only when none of that platform is present; an identifier naming Twitter or YouTube always adds a link |
| `Socials.Links` | src/App.jsx:222-241 | each identifier adds at most one link |
| `Socials.FindPlatform` | src/App.jsx:229 | the search reports whether some link of the platform is present |
| `Socials.GetSocialLinks` | src/App.jsx:222-241 | the loop over the identifiers builds exactly the specified links, and none when the identifiers are missing |
| `Socials.TwitterLinks` | src/App.jsx:227-228 | the Twitter links are one per identifier whose type names Twitter, in identifier order |
| `Socials.FacebookLinks` | src/App.jsx:229-232 | there is at most one Facebook link, built from the first identifier that names Facebook and not Twitter |
| `Socials.AtMostOneInstagram` | src/App.jsx:233-234 | there is never more than one Instagram link |
| `Socials.InstagramLinks` | src/App.jsx:233-234 | when no type names both Facebook and Instagram, the Instagram link is built from the first identifier preferring Instagram |
| `Socials.YouTubeLinks` | src/App.jsx:235-236 | when no type names YouTube together with Facebook or Instagram, the YouTube links are one per identifier preferring YouTube, in order |
| `Socials.LinksPrefix` | src/App.jsx:225-238 | the links of a prefix of the identifiers are a prefix of the links, so links appear in identifier order |
| `Socials.FacebookFirst` | src/App.jsx:229-232 | a lone Facebook identifier with a bare value links to facebook.com plus the value |
| `Socials.FacebookTwice` | src/App.jsx:229-232 | two Facebook identifiers give a single link, built from the first |
| `Socials.FacebookFallsThrough` | src/App.jsx:229-234 | a second Facebook identifier whose type also names Instagram falls through the Facebook test and gives an Instagram link |
| `Lookup.Resolve` | src/App.jsx:96-116 | the reply succeeds exactly when it is HTTP-ok, has no errors and has a first candidate with an officials list; the officials and the normalized address (the match when not empty, else the entered address) come from that candidate; a thrown error keeps its message, a failed status gives the not-found message, the first embedded error is used, and a missing candidate or officials list gives the no-representatives message |
| `Lookup.StatusBeatsErrors` | src/App.jsx:96-104 | a failed HTTP status gives the not-found message whatever errors the reply carries |
| `Lookup.EmptyOfficialsFound` | src/App.jsx:106-109 | a first candidate with an empty officials list is a success with no officials |
| `Lookup.NormalizedNotEmpty` | src/App.jsx:112-116 | a successful search of a non-blank address has a non-empty normalized address |
| `Lookup.RepLookup.constructor` | src/App.jsx:5-9 | the page starts with an empty address, nothing loading, and no results, error or normalized address |
| `Lookup.RepLookup.SetAddress` | src/App.jsx:257 | typing changes the address and nothing else |
| `Lookup.RepLookup.FetchReps` | src/App.jsx:82-126 | a blank address changes nothing; otherwise loading ends false and the state shows the resolved outcome: results with the normalized address and no error, or the error message with results and normalized address cleared; results and error are never shown together |
| `Text.TrimEmptyIffBlank` | src/App.jsx:83 | a string trims to empty exactly when every character is ECMAScript white space or a line terminator, which is how `FetchReps` tests the address |

## Left out

- Loading of the Google Maps script and the address autocomplete widget (src/App.jsx:17-80): DOM manipulation, timers and a foreign library.
- The HTTP request: `fetch`, the endpoint choice and URL encoding, and JSON parsing (src/App.jsx:89-100). `FetchReps` takes the reply as a `Response` value instead. A rejected request, a body that is not JSON, or a reply whose shape makes a field access throw are all `Response.Thrown` with the message the source would show.
- `async`/`await` and React state hooks. One `fetchReps` call is one atomic `FetchReps`, so the transient `loading == true` state between its first and last state update is not observable in the model. Overlapping searches are not modelled.
- Rendering (src/App.jsx:243-353), including the initials placeholder, label fallbacks and the icons of buckets and links. Party badges are the opaque tags of `Extract.Glyph`.
- `toLowerCase`/`toUpperCase` are modelled on ASCII letters only; other characters are left unchanged.
- Values of the wrong JSON type (a number as a name, an object as an error entry, a non-string identifier value) are not modelled: every such field is a string when present.
- `Socials.NewLink`, `Socials.GetSocialLinks`: an identifier without `identifier_value` is not representable, because `Records.Identifier.identifierValue` is a plain string. In the source such an identifier gives a Twitter, Instagram or YouTube URL ending in the text "undefined" (src/App.jsx:228, 234, 236), and a Facebook one throws a TypeError at `startsWith` (src/App.jsx:231), which aborts rendering the card; neither behaviour is modelled.
- `Lookup.RepLookup.FetchReps`: the source tests `!address.trim()`. The model tests `Blank(address)`, which `Text.TrimEmptyIffBlank` proves equivalent to it.
- `Socials.InstagramLinks`: stated only when no identifier type names both Facebook and Instagram, because such an identifier falls through to the Instagram test once a Facebook link exists. `Socials.FacebookFallsThrough` exhibits that case.
- `Socials.YouTubeLinks`: stated only when no identifier type names YouTube together with Facebook or Instagram, for the same fall-through reason.
