/** `groupByLevel`: each official is put in the bucket of one government
    level by an ordered chain of substring tests, and the non-empty buckets
    come out in the fixed order local, county, state, federal, other. */
module Levels {
  import opened Text
  import opened Records

  datatype Level = Local | County | State | Federal | Other

  /** The order the buckets are emitted in. */
  const LevelOrder: seq<Level> := [Local, County, State, Federal, Other]

  /** The position of a level in `LevelOrder`. */
  function Rank(l: Level): (r: nat)
    ensures r < |LevelOrder| && LevelOrder[r] == l
  {
    match l
    case Local => 0
    case County => 1
    case State => 2
    case Federal => 3
    case Other => 4
  }

  function DisplayName(l: Level): string {
    match l
    case Local => "Local"
    case County => "County"
    case State => "State"
    case Federal => "Federal"
    case Other => "Other"
  }

  // ---------------------------------------------------------------- classification

  /** One link of the chain: an official whose district type contains
      `districtKeyword`, or whose lower-cased title contains one of
      `titleKeywords`, belongs to `level`. */
  datatype Rule = Rule(level: Level, districtKeyword: string, titleKeywords: seq<string>)

  /** The chain in the order the source tests it; an official matching no
      rule is `Other`. */
  const Rules: seq<Rule> := [
    Rule(Local, "LOCAL", []),
    Rule(County, "COUNTY", ["county", "sheriff"]),
    Rule(State, "STATE", ["governor", "state"]),
    Rule(Federal, "NATIONAL", ["president", "senator", "representative", "secretary", "congress"])
  ]

  predicate AnyContains(s: string, keywords: seq<string>) {
    exists k :: 0 <= k < |keywords| && Contains(s, keywords[k])
  }

  predicate Matches(rule: Rule, districtType: string, title: string) {
    Contains(districtType, rule.districtKeyword) || AnyContains(title, rule.titleKeywords)
  }

  /** The level chosen from a district type, tested as it is (upper-case
      keywords, case-sensitive), and a title already lower-cased. */
  function LevelOf(districtType: string, title: string): Level {
    if Contains(districtType, "LOCAL") then Local
    else if Contains(districtType, "COUNTY") || Contains(title, "county") || Contains(title, "sheriff") then
      County
    else if Contains(districtType, "STATE") || Contains(title, "governor") || Contains(title, "state") then
      State
    else if || Contains(districtType, "NATIONAL") || Contains(title, "president")
            || Contains(title, "senator") || Contains(title, "representative")
            || Contains(title, "secretary") || Contains(title, "congress") then
      Federal
    else Other
  }

  /** The chain is first-match-wins over `Rules`: the level chosen is that of
      the first rule that matches, and `Other` exactly when none does. */
  lemma LevelOfIsFirstMatch(districtType: string, title: string)
    ensures var r := LevelOf(districtType, title);
      && (r == Other <==> forall k :: 0 <= k < |Rules| ==> !Matches(Rules[k], districtType, title))
      && (r != Other ==>
            && Rank(r) < |Rules| && Rules[Rank(r)].level == r
            && Matches(Rules[Rank(r)], districtType, title)
            && forall k :: 0 <= k < Rank(r) ==> !Matches(Rules[k], districtType, title))
  {
    var d, t := districtType, title;
    var countyWords, stateWords := ["county", "sheriff"], ["governor", "state"];
    var federalWords := ["president", "senator", "representative", "secretary", "congress"];
    assert Rules == [Rule(Local, "LOCAL", []), Rule(County, "COUNTY", countyWords),
                     Rule(State, "STATE", stateWords), Rule(Federal, "NATIONAL", federalWords)];
    assert !AnyContains(t, []);
    assert AnyContains(t, countyWords) <==> Contains(t, "county") || Contains(t, "sheriff") by {
      if Contains(t, "county") { assert Contains(t, countyWords[0]); }
      if Contains(t, "sheriff") { assert Contains(t, countyWords[1]); }
    }
    assert AnyContains(t, stateWords) <==> Contains(t, "governor") || Contains(t, "state") by {
      if Contains(t, "governor") { assert Contains(t, stateWords[0]); }
      if Contains(t, "state") { assert Contains(t, stateWords[1]); }
    }
    assert AnyContains(t, federalWords) <==>
      || Contains(t, "president") || Contains(t, "senator") || Contains(t, "representative")
      || Contains(t, "secretary") || Contains(t, "congress")
    by {
      if Contains(t, "president") { assert Contains(t, federalWords[0]); }
      if Contains(t, "senator") { assert Contains(t, federalWords[1]); }
      if Contains(t, "representative") { assert Contains(t, federalWords[2]); }
      if Contains(t, "secretary") { assert Contains(t, federalWords[3]); }
      if Contains(t, "congress") { assert Contains(t, federalWords[4]); }
    }
    assert Matches(Rules[0], d, t) <==> Contains(d, "LOCAL");
    assert Matches(Rules[1], d, t) <==> Contains(d, "COUNTY") || AnyContains(t, countyWords);
    assert Matches(Rules[2], d, t) <==> Contains(d, "STATE") || AnyContains(t, stateWords);
    assert Matches(Rules[3], d, t) <==> Contains(d, "NATIONAL") || AnyContains(t, federalWords);
    var r := LevelOf(d, t);
    if r == Other {
      forall k | 0 <= k < |Rules| ensures !Matches(Rules[k], d, t) {
        assert k == 0 || k == 1 || k == 2 || k == 3;
      }
    }
  }

  /** `official.office?.district?.district_type || ''`. */
  function DistrictTypeOf(o: Official): string {
    match o.office
    case None => ""
    case Some(office) =>
      match office.district
      case None => ""
      case Some(d) => OrEmpty(d.districtType)
  }

  /** `official.office?.title || ''`, before lower-casing. */
  function TitleOf(o: Official): string {
    match o.office
    case None => ""
    case Some(office) => OrEmpty(office.title)
  }

  /** The level `groupByLevel` files an official under. Only the title is
      lower-cased; the district type is compared as it is. */
  function Classify(o: Official): Level {
    LevelOf(DistrictTypeOf(o), ToLower(TitleOf(o)))
  }

  /** A district type containing "LOCAL" decides, whatever the title says. */
  lemma LocalDistrictWins(o: Official)
    requires Contains(DistrictTypeOf(o), "LOCAL")
    ensures Classify(o) == Local
  {
  }

  /** A county or sheriff title outranks a state district type. */
  lemma CountyTitleBeatsStateDistrict(o: Official)
    requires !Contains(DistrictTypeOf(o), "LOCAL")
    requires Contains(ToLower(TitleOf(o)), "sheriff") || Contains(ToLower(TitleOf(o)), "county")
    ensures Classify(o) == County
  {
  }

  /** An official without an office, or whose office has neither a title
      nor a district type (no district record, or one without a type), reads
      both as empty strings and lands in `Other`. */
  lemma MissingFieldsAreOther(o: Official)
    requires o.office.None? ||
      (o.office.value.title.None? &&
       (o.office.value.district.None? || o.office.value.district.value.districtType.None?))
    ensures DistrictTypeOf(o) == "" && TitleOf(o) == ""
    ensures Classify(o) == Other
  {
    NoKeywordInEmpty();
  }

  /** A missing title classifies exactly as an empty one, and a missing
      district type in a present district record exactly as an empty one. */
  lemma MissingFieldReadsEmpty(office: Office, o: Official)
    requires o.office == Some(office)
    ensures office.title.None? ==>
      Classify(o) == Classify(o.(office := Some(office.(title := Some("")))))
    ensures office.district.Some? && office.district.value.districtType.None? ==>
      Classify(o) == Classify(o.(office := Some(office.(district := Some(office.district.value.(districtType := Some("")))))))
  {
  }

  lemma NoKeywordInEmpty()
    ensures forall k :: 0 <= k < |Rules| ==> !Matches(Rules[k], "", "")
  {
    forall k, sub | 0 <= k < |Rules| && sub in [Rules[k].districtKeyword] + Rules[k].titleKeywords
      ensures !Contains("", sub)
    {
      assert sub != "";
      NotContainsByChar("", sub, 0);
    }
  }

  /** The district type is case-sensitive: "local" does not make an official
      local, while "LOCAL" does. */
  lemma CaseAsymmetry()
    ensures LevelOf("local", "") == Other
    ensures LevelOf("LOCAL", "") == Local
  {
    var lower := "local";
    NotContainsByChar(lower, "LOCAL", 0);
    NotContainsByChar(lower, "COUNTY", 0);
    NotContainsByChar(lower, "STATE", 0);
    NotContainsByChar(lower, "NATIONAL", 0);
    NoKeywordInEmpty();
    ContainsSelf("LOCAL");
  }

  /** The title is compared after lower-casing: an office titled "County
      Sheriff" without a district is a county office. */
  lemma SheriffTitleIsCounty(o: Official)
    requires o.office == Some(Office(Some("County Sheriff"), None))
    ensures Classify(o) == County
  {
    assert DistrictTypeOf(o) == "";
    NotContainsByChar("", "LOCAL", 0);
    var t := ToLower(TitleOf(o));
    assert t[..6] == "county";
    ContainsAt(t, "county", 0);
  }

  // ---------------------------------------------------------------- bucketing

  // The bucketing below is stated for any classifier `levelOf`; the source's
  // is `Classify`, which `GroupByLevel` uses. Keeping the classifier abstract
  // keeps these proofs independent of the keyword tests.

  /** The officials of `os` that `levelOf` puts at level `l`, in input
      order: the contents of that level's bucket. */
  function Members(os: seq<Official>, l: Level, levelOf: Official -> Level): (r: seq<Official>)
    ensures |r| <= |os|
    ensures forall x :: x in r ==> x in os && levelOf(x) == l
  {
    if os == [] then []
    else
      var last := os[|os| - 1];
      Members(os[..|os| - 1], l, levelOf) + (if levelOf(last) == l then [last] else [])
  }

  /** Bucketing commutes with splitting the input: whatever precedes an
      official in the input precedes it in its bucket. */
  lemma {:induction false} MembersAppend(a: seq<Official>, b: seq<Official>, l: Level, levelOf: Official -> Level)
    ensures Members(a + b, l, levelOf) == Members(a, l, levelOf) + Members(b, l, levelOf)
    decreases |b|
  {
    if b != [] {
      var b' := b[..|b| - 1];
      assert (a + b)[..|a + b| - 1] == a + b';
      MembersAppend(a, b', l, levelOf);
    } else {
      assert a + b == a;
    }
  }

  /** Nothing is dropped: an official lands in the bucket of its level. */
  lemma {:induction false} MembersComplete(os: seq<Official>, x: Official, levelOf: Official -> Level)
    requires x in os
    ensures x in Members(os, levelOf(x), levelOf)
    decreases |os|
  {
    var last := os[|os| - 1];
    if x != last {
      assert os == os[..|os| - 1] + [last];
      MembersComplete(os[..|os| - 1], x, levelOf);
    }
  }

  /** The bucket of an official's level holds it exactly as many times as
      the input does (and, by `Members`' contract, no other bucket holds it). */
  lemma {:induction false} MembersCount(os: seq<Official>, x: Official, levelOf: Official -> Level)
    ensures multiset(Members(os, levelOf(x), levelOf))[x] == multiset(os)[x]
    decreases |os|
  {
    if os != [] {
      var init, last := os[..|os| - 1], os[|os| - 1];
      MembersCount(init, x, levelOf);
      assert os == init + [last];
    }
  }

  /** The five bucket sizes sum to the input's length. */
  lemma {:induction false} MembersSizes(os: seq<Official>, levelOf: Official -> Level)
    ensures |Members(os, Local, levelOf)| + |Members(os, County, levelOf)| + |Members(os, State, levelOf)|
            + |Members(os, Federal, levelOf)| + |Members(os, Other, levelOf)| == |os|
    decreases |os|
  {
    if os != [] {
      MembersSizes(os[..|os| - 1], levelOf);
    }
  }

  datatype Bucket = Bucket(level: Level, name: string, officials: seq<Official>)

  /** The bucket lists after the `forEach` fill: one list per level. */
  function Tally(os: seq<Official>, levelOf: Official -> Level): (lists: map<Level, seq<Official>>)
    ensures forall l :: l in lists ==> lists[l] == Members(os, l, levelOf)
  {
    map[Local := Members(os, Local, levelOf), County := Members(os, County, levelOf), State := Members(os, State, levelOf),
        Federal := Members(os, Federal, levelOf), Other := Members(os, Other, levelOf)]
  }

  lemma LevelCases(l: Level)
    ensures l == Local || l == County || l == State || l == Federal || l == Other
  {
    match l
    case Local =>
    case County =>
    case State =>
    case Federal =>
    case Other =>
  }

  /** `Tally` has a list for every level. */
  predicate Filled(lists: map<Level, seq<Official>>, os: seq<Official>, levelOf: Official -> Level) {
    forall l :: l in lists && lists[l] == Members(os, l, levelOf)
  }

  lemma TallyFilled(os: seq<Official>, levelOf: Official -> Level)
    ensures Filled(Tally(os, levelOf), os, levelOf)
  {
    forall l ensures l in Tally(os, levelOf) {
      LevelCases(l);
    }
  }

  /** The bucket of level `l`, if its list is not empty. */
  function Kept(lists: map<Level, seq<Official>>, l: Level): (r: seq<Bucket>)
    requires l in lists
  {
    if |lists[l]| > 0 then [Bucket(l, DisplayName(l), lists[l])] else []
  }

  /** `.map(key => levels[key]).filter(l => l.officials.length > 0)` over
      the level keys `ls`. */
  function Collect(lists: map<Level, seq<Official>>, ls: seq<Level>): seq<Bucket>
    requires forall k :: 0 <= k < |ls| ==> ls[k] in lists
  {
    if ls == [] then [] else Kept(lists, ls[0]) + Collect(lists, ls[1..])
  }

  /** What `groupByLevel` returns for `os`. */
  function Grouped(os: seq<Official>, levelOf: Official -> Level): seq<Bucket> {
    Collect(Tally(os, levelOf), LevelOrder)
  }

  /** The total number of officials in `bs`. */
  function SizeSum(bs: seq<Bucket>): nat {
    if bs == [] then 0 else |bs[0].officials| + SizeSum(bs[1..])
  }

  /** The total length of the lists of the levels in `ls`. */
  function ListSizes(lists: map<Level, seq<Official>>, ls: seq<Level>): nat
    requires forall k :: 0 <= k < |ls| ==> ls[k] in lists
  {
    if ls == [] then 0 else |lists[ls[0]]| + ListSizes(lists, ls[1..])
  }

  predicate IncreasingRanks(ls: seq<Level>) {
    forall i, j :: 0 <= i < j < |ls| ==> Rank(ls[i]) < Rank(ls[j])
  }

  lemma TailIncreasing(ls: seq<Level>)
    requires ls != [] && IncreasingRanks(ls)
    ensures IncreasingRanks(ls[1..])
    ensures forall k :: 0 <= k < |ls[1..]| ==> Rank(ls[0]) < Rank(ls[1..][k])
  {
    forall i, j | 0 <= i < j < |ls[1..]| ensures Rank(ls[1..][i]) < Rank(ls[1..][j]) {
      assert ls[1..][i] == ls[i + 1] && ls[1..][j] == ls[j + 1];
    }
  }

  /** `Collect` keeps only non-empty lists, each under its own level and
      display name, and only lists of the levels in `ls`. */
  lemma {:induction false} CollectContents(lists: map<Level, seq<Official>>, ls: seq<Level>)
    requires forall k :: 0 <= k < |ls| ==> ls[k] in lists
    ensures forall i :: 0 <= i < |Collect(lists, ls)| ==>
      && Collect(lists, ls)[i].level in ls
      && Collect(lists, ls)[i].officials == lists[Collect(lists, ls)[i].level]
      && Collect(lists, ls)[i].officials != []
      && Collect(lists, ls)[i].name == DisplayName(Collect(lists, ls)[i].level)
    decreases |ls|
  {
    if ls != [] {
      var head, rest := Kept(lists, ls[0]), Collect(lists, ls[1..]);
      var g: seq<Bucket> := head + rest;
      CollectContents(lists, ls[1..]);
      assert ls == [ls[0]] + ls[1..];
      forall i | 0 <= i < |g|
        ensures g[i].level in ls
      {
        if i >= |head| {
          assert g[i] == rest[i - |head|];
        }
      }
    }
  }

  /** `Collect` keeps the order of `ls`. */
  lemma {:induction false} CollectOrdered(lists: map<Level, seq<Official>>, ls: seq<Level>)
    requires forall k :: 0 <= k < |ls| ==> ls[k] in lists
    requires IncreasingRanks(ls)
    ensures forall i, j :: 0 <= i < j < |Collect(lists, ls)| ==>
      Rank(Collect(lists, ls)[i].level) < Rank(Collect(lists, ls)[j].level)
    decreases |ls|
  {
    if ls != [] {
      var head, rest := Kept(lists, ls[0]), Collect(lists, ls[1..]);
      TailIncreasing(ls);
      CollectOrdered(lists, ls[1..]);
      CollectContents(lists, ls[1..]);
      var g := head + rest;
      forall i, j | 0 <= i < j < |g| ensures Rank(g[i].level) < Rank(g[j].level) {
        assert g[j] == rest[j - |head|];
        if i < |head| {
          var k :| 0 <= k < |ls[1..]| && ls[1..][k] == rest[j - |head|].level;
        } else {
          assert g[i] == rest[i - |head|];
        }
      }
    }
  }

  /** `Collect` drops no non-empty list. */
  lemma {:induction false} CollectComplete(lists: map<Level, seq<Official>>, ls: seq<Level>)
    requires forall k :: 0 <= k < |ls| ==> ls[k] in lists
    ensures forall k :: 0 <= k < |ls| && lists[ls[k]] != [] ==>
      exists i :: 0 <= i < |Collect(lists, ls)| && Collect(lists, ls)[i].level == ls[k]
    decreases |ls|
  {
    if ls != [] {
      var head, rest := Kept(lists, ls[0]), Collect(lists, ls[1..]);
      var g := head + rest;
      assert g == Collect(lists, ls);
      CollectComplete(lists, ls[1..]);
      forall k | 0 <= k < |ls| && lists[ls[k]] != []
        ensures exists i :: 0 <= i < |g| && g[i].level == ls[k]
      {
        if k == 0 {
          assert g[0] == head[0];
        } else {
          assert ls[k] == ls[1..][k - 1];
          var i :| 0 <= i < |rest| && rest[i].level == ls[k];
          assert g[|head| + i] == rest[i];
        }
      }
    }
  }

  lemma {:induction false} SizeSumAppend(a: seq<Bucket>, b: seq<Bucket>)
    ensures SizeSum(a + b) == SizeSum(a) + SizeSum(b)
    decreases |a|
  {
    if a != [] {
      assert (a + b)[1..] == a[1..] + b;
      SizeSumAppend(a[1..], b);
    } else {
      assert a + b == b;
    }
  }

  /** `Collect` loses no official: the sizes of its buckets add up to the
      sizes of all the lists of `ls`. */
  lemma {:induction false} CollectSizes(lists: map<Level, seq<Official>>, ls: seq<Level>)
    requires forall k :: 0 <= k < |ls| ==> ls[k] in lists
    ensures SizeSum(Collect(lists, ls)) == ListSizes(lists, ls)
    decreases |ls|
  {
    if ls != [] {
      var head, rest := Kept(lists, ls[0]), Collect(lists, ls[1..]);
      CollectSizes(lists, ls[1..]);
      SizeSumAppend(head, rest);
      if head != [] {
        assert head[1..] == [];
      }
    }
  }

  /** Every bucket of the output is non-empty and holds exactly the
      officials of its level, in input order, under its display name. */
  lemma GroupedContents(os: seq<Official>, levelOf: Official -> Level)
    ensures forall i :: 0 <= i < |Grouped(os, levelOf)| ==>
      && Grouped(os, levelOf)[i].officials == Members(os, Grouped(os, levelOf)[i].level, levelOf)
      && Grouped(os, levelOf)[i].officials != []
      && Grouped(os, levelOf)[i].name == DisplayName(Grouped(os, levelOf)[i].level)
  {
    CollectContents(Tally(os, levelOf), LevelOrder);
  }

  /** The bucket levels follow `LevelOrder`, without repeats: the keys form
      a subsequence of local, county, state, federal, other. */
  lemma GroupedOrdered(os: seq<Official>, levelOf: Official -> Level)
    ensures forall i, j :: 0 <= i < j < |Grouped(os, levelOf)| ==>
      Rank(Grouped(os, levelOf)[i].level) < Rank(Grouped(os, levelOf)[j].level)
  {
    assert IncreasingRanks(LevelOrder);
    CollectOrdered(Tally(os, levelOf), LevelOrder);
  }

  /** A level gets a bucket exactly when some official classifies there. */
  lemma GroupedLevels(os: seq<Official>, levelOf: Official -> Level)
    ensures forall l :: Members(os, l, levelOf) != [] <==>
      exists i :: 0 <= i < |Grouped(os, levelOf)| && Grouped(os, levelOf)[i].level == l
  {
    var g := Grouped(os, levelOf);
    CollectContents(Tally(os, levelOf), LevelOrder);
    CollectComplete(Tally(os, levelOf), LevelOrder);
    forall l | Members(os, l, levelOf) != [] ensures exists i :: 0 <= i < |g| && g[i].level == l {
      assert LevelOrder[Rank(l)] == l;
    }
  }

  lemma LevelOrderSizes(lists: map<Level, seq<Official>>)
    requires Local in lists && County in lists && State in lists && Federal in lists && Other in lists
    ensures ListSizes(lists, LevelOrder) ==
      |lists[Local]| + |lists[County]| + |lists[State]| + |lists[Federal]| + |lists[Other]|
  {
    var ls := LevelOrder;
    assert ls[1..] == [County, State, Federal, Other];
    assert ls[1..][1..] == [State, Federal, Other];
    assert ls[1..][1..][1..] == [Federal, Other];
    assert ls[1..][1..][1..][1..] == [Other];
    assert [Other][1..] == [];
    assert ListSizes(lists, [Other]) == |lists[Other]|;
    assert ListSizes(lists, [Federal, Other]) == |lists[Federal]| + |lists[Other]|;
    assert ListSizes(lists, [State, Federal, Other]) ==
      |lists[State]| + |lists[Federal]| + |lists[Other]|;
    assert ListSizes(lists, [County, State, Federal, Other]) ==
      |lists[County]| + |lists[State]| + |lists[Federal]| + |lists[Other]|;
  }

  /** The bucket sizes of the output sum to the input's length. */
  lemma GroupedSizes(os: seq<Official>, levelOf: Official -> Level)
    ensures SizeSum(Grouped(os, levelOf)) == |os|
  {
    var lists := Tally(os, levelOf);
    CollectSizes(lists, LevelOrder);
    LevelOrderSizes(lists);
    MembersSizes(os, levelOf);
  }

  /** One more official joins the bucket of its own level only. */
  lemma MembersSnoc(os: seq<Official>, x: Official, l: Level, levelOf: Official -> Level)
    ensures Members(os + [x], l, levelOf) == Members(os, l, levelOf) + (if levelOf(x) == l then [x] else [])
  {
    assert (os + [x])[..|os|] == os;
  }

  /** Pushing one more official onto the list of its level keeps every list
      equal to its level's bucket. */
  lemma FilledStep(lists: map<Level, seq<Official>>, os: seq<Official>, x: Official, levelOf: Official -> Level)
    requires Filled(lists, os, levelOf)
    ensures Filled(lists[levelOf(x) := lists[levelOf(x)] + [x]], os + [x], levelOf)
  {
    forall l ensures Members(os + [x], l, levelOf) == Members(os, l, levelOf) + (if levelOf(x) == l then [x] else []) {
      MembersSnoc(os, x, l, levelOf);
    }
  }

  /** Every official is in exactly one bucket, that of its own level, and
      that bucket holds it as many times as the input does. */
  lemma OfficialInOneBucket(os: seq<Official>, x: Official, levelOf: Official -> Level)
    requires x in os
    ensures exists i :: 0 <= i < |Grouped(os, levelOf)| && Grouped(os, levelOf)[i].level == levelOf(x)
                        && multiset(Grouped(os, levelOf)[i].officials)[x] == multiset(os)[x]
    ensures forall i :: 0 <= i < |Grouped(os, levelOf)| && x in Grouped(os, levelOf)[i].officials ==>
      Grouped(os, levelOf)[i].level == levelOf(x)
    ensures forall i, j ::
      (0 <= i < |Grouped(os, levelOf)| && 0 <= j < |Grouped(os, levelOf)|
       && x in Grouped(os, levelOf)[i].officials && x in Grouped(os, levelOf)[j].officials) ==> i == j
  {
    GroupedOrdered(os, levelOf);
    GroupedContents(os, levelOf);
    GroupedLevels(os, levelOf);
    MembersComplete(os, x, levelOf);
    MembersCount(os, x, levelOf);
  }

  /** `groupByLevel`: fill one list per level in a single pass, pushing each
      official onto the list of its level, then keep the non-empty lists in
      level order. */
  method GroupByLevel(officials: seq<Official>) returns (buckets: seq<Bucket>)
    ensures buckets == Grouped(officials, Classify)
  {
    var lists: map<Level, seq<Official>> :=
      map[Local := [], County := [], State := [], Federal := [], Other := []];
    forall l ensures l in lists {
      LevelCases(l);
    }
    var i := 0;
    while i < |officials|
      invariant 0 <= i <= |officials|
      invariant Filled(lists, officials[..i], Classify)
    {
      var official := officials[i];
      var level := Classify(official);
      assert officials[..i + 1] == officials[..i] + [official];
      FilledStep(lists, officials[..i], official, Classify);
      lists := lists[level := lists[level] + [official]];
      i := i + 1;
    }
    assert officials[..i] == officials;
    TallyFilled(officials, Classify);
    assert lists == Tally(officials, Classify);
    buckets := Collect(lists, LevelOrder);
  }
}
