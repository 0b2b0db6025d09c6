/** The per-official field accessors of the results view: the display name,
    the party styling and the first photo, website, phone and email. Each
    tolerates missing fields and yields `None` (JavaScript's null) instead of
    failing. */
module Extract {
  import opened Text
  import opened Records

  // ---------------------------------------------------------------- name

  /** The parts `getOfficialName` collects, in order: the first name, the
      middle initial when truthy, the last name, the suffix when truthy. An
      absent first or last name joins as the empty string, as
      `Array.prototype.join` renders null and undefined. */
  function NameParts(o: Official): seq<string> {
    [OrEmpty(o.firstName)]
    + (if Truthy(o.middleInitial).Some? then [o.middleInitial.value] else [])
    + [OrEmpty(o.lastName)]
    + (if Truthy(o.nameSuffix).Some? then [o.nameSuffix.value] else [])
  }

  /** `getOfficialName`. */
  function OfficialName(o: Official): string {
    JoinSpaces(NameParts(o))
  }

  /** Name parts free of spaces can be read back from the displayed name: its
      space-separated words are the first name, the middle initial if
      present, the last name and the suffix if present. */
  lemma OfficialNameWords(o: Official)
    requires ' ' !in OrEmpty(o.firstName) && ' ' !in OrEmpty(o.middleInitial)
    requires ' ' !in OrEmpty(o.lastName) && ' ' !in OrEmpty(o.nameSuffix)
    ensures var words := SplitSpaces(OfficialName(o));
      && |words| == 2 + (if Truthy(o.middleInitial).Some? then 1 else 0)
                      + (if Truthy(o.nameSuffix).Some? then 1 else 0)
      && words[0] == OrEmpty(o.firstName)
      && (Truthy(o.middleInitial).Some? ==> words[1] == o.middleInitial.value)
      && words[if Truthy(o.middleInitial).Some? then 2 else 1] == OrEmpty(o.lastName)
      && (Truthy(o.nameSuffix).Some? ==> words[|words| - 1] == o.nameSuffix.value)
  {
    SplitJoin(NameParts(o));
  }

  /** Jane/Doe reads "Jane Doe"; with middle initial Q and suffix III it
      reads "Jane Q Doe III"; without a first name the join leaves a
      leading space. */
  lemma OfficialNameExamples()
    ensures OfficialName(NamedOfficial("Jane", "Doe")) == "Jane Doe"
    ensures OfficialName(NamedOfficial("Jane", "Doe").(middleInitial := Some("Q"), nameSuffix := Some("III")))
            == "Jane Q Doe III"
    ensures OfficialName(NamedOfficial("Jane", "Doe").(middleInitial := Some(""))) == "Jane Doe"
    ensures OfficialName(NamedOfficial("Jane", "Doe").(firstName := None)) == " Doe"
  {
  }

  // ---------------------------------------------------------------- party

  datatype PartyStyle = UnknownParty | Democrat | Republican | Libertarian | GreenParty | OtherParty

  /** One substring test of the party chain: a lower-cased party containing
      `keyword` gets `style`. */
  datatype PartyRule = PartyRule(keyword: string, style: PartyStyle)

  /** The party tests in the order the source applies them. */
  const PartyRules: seq<PartyRule> := [
    PartyRule("democrat", Democrat),
    PartyRule("republican", Republican),
    PartyRule("libertarian", Libertarian),
    PartyRule("green", GreenParty)
  ]

  /** The party string as the chain tests it: lower-cased, absent as empty. */
  function PartyText(party: Option<string>): string {
    ToLower(OrEmpty(party))
  }

  /** The decision `getPartyClass` and `getPartyEmoji` share: an absent or
      empty party is unknown; otherwise the first rule whose keyword the
      lower-cased party contains wins, and a party matching none is other. */
  function PartyStyleOf(party: Option<string>): (r: PartyStyle)
    ensures r == UnknownParty <==> Truthy(party) == None
    ensures r == OtherParty <==>
      Truthy(party) != None &&
      forall k :: 0 <= k < |PartyRules| ==> !Contains(PartyText(party), PartyRules[k].keyword)
    ensures forall k :: 0 <= k < |PartyRules| && r == PartyRules[k].style ==>
      && Contains(PartyText(party), PartyRules[k].keyword)
      && forall j :: 0 <= j < k ==> !Contains(PartyText(party), PartyRules[j].keyword)
  {
    if Truthy(party) == None then UnknownParty
    else
      var p := PartyText(party);
      assert PartyRules[0].keyword == "democrat" && PartyRules[1].keyword == "republican";
      assert PartyRules[2].keyword == "libertarian" && PartyRules[3].keyword == "green";
      if Contains(p, "democrat") then Democrat
      else if Contains(p, "republican") then Republican
      else if Contains(p, "libertarian") then Libertarian
      else if Contains(p, "green") then GreenParty
      else OtherParty
  }

  function ClassName(style: PartyStyle): string {
    match style
    case UnknownParty => "party-unknown"
    case Democrat => "party-dem"
    case Republican => "party-rep"
    case Libertarian => "party-lib"
    case GreenParty => "party-green"
    case OtherParty => "party-other"
  }

  /** The badge glyphs, as opaque tags: shrug, blue, red, yellow, green and
      white circles. */
  datatype Glyph = Shrug | BlueCircle | RedCircle | YellowCircle | GreenCircle | WhiteCircle

  function GlyphOf(style: PartyStyle): Glyph {
    match style
    case UnknownParty => Shrug
    case Democrat => BlueCircle
    case Republican => RedCircle
    case Libertarian => YellowCircle
    case GreenParty => GreenCircle
    case OtherParty => WhiteCircle
  }

  /** `getPartyClass`: the CSS class of an official's card. */
  function PartyClass(party: Option<string>): (r: string)
    ensures StartsWith(r, "party-")
    ensures r == "party-unknown" <==> Truthy(party) == None
  {
    ClassName(PartyStyleOf(party))
  }

  /** `getPartyEmoji`: the glyph of an official's party badge. */
  function PartyEmoji(party: Option<string>): (g: Glyph)
    ensures g == Shrug <==> Truthy(party) == None
  {
    GlyphOf(PartyStyleOf(party))
  }

  /** The source repeats the same chain of tests in both party functions;
      the model shares one decision, `PartyStyleOf`, between them, so their
      agreement comes down to `ClassName` and `GlyphOf` both being
      injective: two parties share a card class exactly when they share a
      badge glyph. */
  lemma PartyClassMatchesEmoji(p: Option<string>, q: Option<string>)
    ensures PartyClass(p) == PartyClass(q) <==> PartyEmoji(p) == PartyEmoji(q)
  {
    var s, t := PartyStyleOf(p), PartyStyleOf(q);
    if s != t {
      ClassNameInjective(s, t);
    }
  }

  lemma ClassNameInjective(s: PartyStyle, t: PartyStyle)
    requires s != t
    ensures ClassName(s) != ClassName(t)
  {
    var a, b := ClassName(s), ClassName(t);
    if |a| == |b| {
      // equal-length class names already differ in their seventh character
      assert a[6] != b[6] || a[7] != b[7];
    }
  }

  // ---------------------------------------------------------------- contact fields

  /** `getPhotoUrl`: the photo URL when it is present and not empty. */
  function PhotoUrl(o: Official): (r: Option<string>)
    ensures r.Some? <==> o.photoOriginUrl.Some? && o.photoOriginUrl.value != ""
    ensures r.Some? ==> r == o.photoOriginUrl
  {
    Truthy(o.photoOriginUrl)
  }

  /** The first element of an optional list, or `None` when the list is
      absent or empty. */
  function FirstEntry<T>(xs: Option<seq<T>>): Option<T> {
    if xs.Some? && |xs.value| > 0 then Some(xs.value[0]) else None
  }

  /** `getWebsiteUrl`: the first listed URL, whatever it is. */
  function WebsiteUrl(o: Official): (r: Option<string>)
    ensures r.Some? <==> o.urls.Some? && |o.urls.value| > 0
    ensures r.Some? ==> r.value == o.urls.value[0]
  {
    FirstEntry(o.urls)
  }

  /** `getPhone`: the first address's phone when it is present and not
      empty; later addresses are never consulted. */
  function Phone(o: Official): (r: Option<string>)
    ensures r.Some? <==>
      o.addresses.Some? && |o.addresses.value| > 0 &&
      o.addresses.value[0].phone1.Some? && o.addresses.value[0].phone1.value != ""
    ensures r.Some? ==> r == o.addresses.value[0].phone1
  {
    match FirstEntry(o.addresses)
    case Some(a) => Truthy(a.phone1)
    case None => None
  }

  /** `getEmail`: the first listed email address, whatever it is. */
  function Email(o: Official): (r: Option<string>)
    ensures r.Some? <==> o.emailAddresses.Some? && |o.emailAddresses.value| > 0
    ensures r.Some? ==> r.value == o.emailAddresses.value[0]
  {
    FirstEntry(o.emailAddresses)
  }
}
