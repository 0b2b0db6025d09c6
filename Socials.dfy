/** The social-media links of an official's card, built from the official's
    identifiers: one pass over them, each identifier adding at most one link
    according to the platform its type names. Twitter and YouTube links are
    added for every matching identifier; Facebook and Instagram only while
    no link of that platform is present yet. */
module Socials {
  import opened Text
  import opened Records

  datatype Platform = Twitter | Facebook | Instagram | YouTube

  /** One link of the card (its icon is presentation and not modelled). */
  datatype SocialLink = SocialLink(platform: Platform, url: string)

  /** The Facebook address of an identifier value: the value itself when it
      is already a URL (it starts with "http"), otherwise the value appended
      to the Facebook site. */
  function FacebookUrl(v: string): (r: string)
    ensures StartsWith(r, "http")
    ensures |v| <= |r| && r[|r| - |v|..] == v
    ensures r == v <==> StartsWith(v, "http")
  {
    if StartsWith(v, "http") then v else "https://facebook.com/" + v
  }

  /** The address of a link of platform `p` for identifier value `v`. */
  function UrlFor(p: Platform, v: string): string {
    match p
    case Twitter => "https://twitter.com/" + v
    case Facebook => FacebookUrl(v)
    case Instagram => "https://instagram.com/" + v
    case YouTube => "https://youtube.com/" + v
  }

  /** The identifier type as the chain tests it: upper-cased, an absent type
      reading as the empty string (which mentions no platform, as an absent
      type passes none of the optional-chained tests). */
  function TypeText(id: Identifier): string {
    ToUpper(OrEmpty(id.identifierType))
  }

  predicate Mentions(id: Identifier, keyword: string) {
    Contains(TypeText(id), keyword)
  }

  /** Some link of `links` is of platform `p` (`socials.find(...)`). */
  predicate HasPlatform(links: seq<SocialLink>, p: Platform) {
    exists k :: 0 <= k < |links| && links[k].platform == p
  }

  /** The link one identifier adds to `socials`, if any: the first test of
      the chain that passes decides it, and the Facebook and Instagram tests
      pass only while `socials` has no link of that platform, so such an
      identifier falls through to the later tests. */
  function NewLink(socials: seq<SocialLink>, id: Identifier): (r: Option<SocialLink>)
    ensures r.Some? ==> r.value.url == UrlFor(r.value.platform, id.identifierValue)
    ensures r.Some? && (r.value.platform == Facebook || r.value.platform == Instagram) ==>
      !HasPlatform(socials, r.value.platform)
    ensures r == None ==> !Mentions(id, "TWITTER") && !Mentions(id, "YOUTUBE")
  {
    var v := id.identifierValue;
    if Mentions(id, "TWITTER") then Some(SocialLink(Twitter, UrlFor(Twitter, v)))
    else if Mentions(id, "FACEBOOK") && !HasPlatform(socials, Facebook) then Some(SocialLink(Facebook, UrlFor(Facebook, v)))
    else if Mentions(id, "INSTAGRAM") && !HasPlatform(socials, Instagram) then Some(SocialLink(Instagram, UrlFor(Instagram, v)))
    else if Mentions(id, "YOUTUBE") then Some(SocialLink(YouTube, UrlFor(YouTube, v)))
    else None
  }

  function Step(socials: seq<SocialLink>, id: Identifier): seq<SocialLink> {
    match NewLink(socials, id)
    case Some(link) => socials + [link]
    case None => socials
  }

  /** The links the pass over `ids` builds, in order. */
  function Links(ids: seq<Identifier>): (r: seq<SocialLink>)
    ensures |r| <= |ids|
  {
    if ids == [] then [] else Step(Links(ids[..|ids| - 1]), ids[|ids| - 1])
  }

  /** `getSocialLinks` of an official: no identifiers, no links. */
  function SocialLinks(o: Official): seq<SocialLink> {
    if o.identifiers.Some? then Links(o.identifiers.value) else []
  }

  // ---------------------------------------------------------------- the method

  /** `socials.find(s => s.type === p)`, as a truth value. */
  method FindPlatform(socials: seq<SocialLink>, p: Platform) returns (found: bool)
    ensures found <==> HasPlatform(socials, p)
  {
    var i := 0;
    while i < |socials|
      invariant 0 <= i <= |socials|
      invariant forall k :: 0 <= k < i ==> socials[k].platform != p
    {
      if socials[i].platform == p {
        return true;
      }
      i := i + 1;
    }
    return false;
  }

  /** `getSocialLinks`: walk the identifiers, pushing at most one link for
      each. */
  method GetSocialLinks(official: Official) returns (socials: seq<SocialLink>)
    ensures socials == SocialLinks(official)
  {
    socials := [];
    if official.identifiers.Some? {
      var ids := official.identifiers.value;
      var i := 0;
      while i < |ids|
        invariant 0 <= i <= |ids|
        invariant socials == Links(ids[..i])
      {
        var id := ids[i];
        assert ids[..i + 1][..i] == ids[..i];
        var v := id.identifierValue;
        var t := ToUpper(OrEmpty(id.identifierType));
        if Contains(t, "TWITTER") {
          socials := socials + [SocialLink(Twitter, "https://twitter.com/" + v)];
        } else {
          var hasFacebook := FindPlatform(socials, Facebook);
          if Contains(t, "FACEBOOK") && !hasFacebook {
            var url := if StartsWith(v, "http") then v else "https://facebook.com/" + v;
            socials := socials + [SocialLink(Facebook, url)];
          } else {
            var hasInstagram := FindPlatform(socials, Instagram);
            if Contains(t, "INSTAGRAM") && !hasInstagram {
              socials := socials + [SocialLink(Instagram, "https://instagram.com/" + v)];
            } else if Contains(t, "YOUTUBE") {
              socials := socials + [SocialLink(YouTube, "https://youtube.com/" + v)];
            }
          }
        }
        i := i + 1;
      }
      assert ids[..i] == ids;
    }
  }

  // ---------------------------------------------------------------- properties

  /** The addresses of the links of platform `p`, in order. */
  function OfPlatform(links: seq<SocialLink>, p: Platform): (r: seq<string>)
    ensures |r| <= |links|
  {
    if links == [] then []
    else
      var last := links[|links| - 1];
      OfPlatform(links[..|links| - 1], p) + (if last.platform == p then [last.url] else [])
  }

  /** The platform the chain picks for `id` when no find-guard blocks it:
      the first of Twitter, Facebook, Instagram and YouTube its type names. */
  function Preferred(id: Identifier): Option<Platform> {
    if Mentions(id, "TWITTER") then Some(Twitter)
    else if Mentions(id, "FACEBOOK") then Some(Facebook)
    else if Mentions(id, "INSTAGRAM") then Some(Instagram)
    else if Mentions(id, "YOUTUBE") then Some(YouTube)
    else None
  }

  /** The addresses, in order, of the identifiers of `ids` that prefer
      platform `p`. */
  function Candidates(ids: seq<Identifier>, p: Platform): seq<string> {
    if ids == [] then []
    else
      var last := ids[|ids| - 1];
      Candidates(ids[..|ids| - 1], p)
      + (if Preferred(last) == Some(p) then [UrlFor(p, last.identifierValue)] else [])
  }

  /** The first element of `s`, as a sequence of at most one. */
  function First(s: seq<string>): (r: seq<string>)
    ensures |r| <= 1
  {
    if s == [] then [] else [s[0]]
  }

  lemma OfPlatformSnoc(links: seq<SocialLink>, link: SocialLink, p: Platform)
    ensures OfPlatform(links + [link], p) == OfPlatform(links, p) + (if link.platform == p then [link.url] else [])
  {
    assert (links + [link])[..|links|] == links;
  }

  /** A link of platform `p` is present exactly when `OfPlatform` lists one. */
  lemma {:induction false} HasPlatformIff(links: seq<SocialLink>, p: Platform)
    ensures HasPlatform(links, p) <==> OfPlatform(links, p) != []
    decreases |links|
  {
    if links != [] {
      var init, last := links[..|links| - 1], links[|links| - 1];
      HasPlatformIff(init, p);
      if HasPlatform(init, p) {
        var k :| 0 <= k < |init| && init[k].platform == p;
        assert links[k] == init[k];
      }
      if HasPlatform(links, p) && last.platform != p {
        var k :| 0 <= k < |links| && links[k].platform == p;
        assert init[k] == links[k];
      }
    }
  }

  lemma FirstSnoc(s: seq<string>, u: string)
    ensures First(s + [u]) == if s == [] then [u] else First(s)
  {
  }

  /** Links of the pass over `ids` followed by `id`. */
  lemma LinksSnoc(ids: seq<Identifier>, id: Identifier, p: Platform)
    ensures OfPlatform(Links(ids + [id]), p) ==
      OfPlatform(Links(ids), p)
      + (if NewLink(Links(ids), id).Some? && NewLink(Links(ids), id).value.platform == p
         then [NewLink(Links(ids), id).value.url] else [])
  {
    assert (ids + [id])[..|ids|] == ids;
    var before := Links(ids);
    match NewLink(before, id)
    case Some(link) => OfPlatformSnoc(before, link, p);
    case None =>
  }

  /** Every identifier naming Twitter yields a Twitter link, in order, and
      nothing else does. */
  lemma {:induction false} TwitterLinks(ids: seq<Identifier>)
    ensures OfPlatform(Links(ids), Twitter) == Candidates(ids, Twitter)
    decreases |ids|
  {
    if ids != [] {
      var init, last := ids[..|ids| - 1], ids[|ids| - 1];
      assert ids == init + [last];
      TwitterLinks(init);
      LinksSnoc(init, last, Twitter);
    }
  }

  /** Only the first identifier preferring Facebook yields a Facebook link. */
  lemma {:induction false} FacebookLinks(ids: seq<Identifier>)
    ensures OfPlatform(Links(ids), Facebook) == First(Candidates(ids, Facebook))
    decreases |ids|
  {
    if ids != [] {
      var init, last := ids[..|ids| - 1], ids[|ids| - 1];
      assert ids == init + [last];
      FacebookLinks(init);
      LinksSnoc(init, last, Facebook);
      HasPlatformIff(Links(init), Facebook);
      FirstSnoc(Candidates(init, Facebook), UrlFor(Facebook, last.identifierValue));
    }
  }

  /** A card never shows more than one Instagram link. */
  lemma {:induction false} AtMostOneInstagram(ids: seq<Identifier>)
    ensures |OfPlatform(Links(ids), Instagram)| <= 1
    decreases |ids|
  {
    if ids != [] {
      var init, last := ids[..|ids| - 1], ids[|ids| - 1];
      assert ids == init + [last];
      AtMostOneInstagram(init);
      LinksSnoc(init, last, Instagram);
      HasPlatformIff(Links(init), Instagram);
    }
  }

  /** When no identifier type names both Facebook and Instagram, only the
      first identifier preferring Instagram yields an Instagram link. */
  lemma {:induction false} InstagramLinks(ids: seq<Identifier>)
    requires forall k :: 0 <= k < |ids| ==> !(Mentions(ids[k], "FACEBOOK") && Mentions(ids[k], "INSTAGRAM"))
    ensures OfPlatform(Links(ids), Instagram) == First(Candidates(ids, Instagram))
    decreases |ids|
  {
    if ids != [] {
      var init, last := ids[..|ids| - 1], ids[|ids| - 1];
      assert ids == init + [last];
      assert !(Mentions(last, "FACEBOOK") && Mentions(last, "INSTAGRAM"));
      InstagramLinks(init);
      LinksSnoc(init, last, Instagram);
      HasPlatformIff(Links(init), Instagram);
      FirstSnoc(Candidates(init, Instagram), UrlFor(Instagram, last.identifierValue));
    }
  }

  /** When no identifier type names YouTube together with Facebook or
      Instagram, every identifier preferring YouTube yields a YouTube link,
      in order. */
  lemma {:induction false} YouTubeLinks(ids: seq<Identifier>)
    requires forall k :: 0 <= k < |ids| ==>
      Mentions(ids[k], "YOUTUBE") ==> !Mentions(ids[k], "FACEBOOK") && !Mentions(ids[k], "INSTAGRAM")
    ensures OfPlatform(Links(ids), YouTube) == Candidates(ids, YouTube)
    decreases |ids|
  {
    if ids != [] {
      var init, last := ids[..|ids| - 1], ids[|ids| - 1];
      assert ids == init + [last];
      assert Mentions(last, "YOUTUBE") ==> !Mentions(last, "FACEBOOK") && !Mentions(last, "INSTAGRAM");
      YouTubeLinks(init);
      LinksSnoc(init, last, YouTube);
    }
  }

  /** The links of a shorter list of identifiers start the links of a longer
      one: links appear in identifier order. */
  lemma {:induction false} LinksPrefix(ids: seq<Identifier>, n: nat)
    requires n <= |ids|
    ensures Links(ids[..n]) <= Links(ids)
    decreases |ids| - n
  {
    if n < |ids| {
      var init := ids[..|ids| - 1];
      assert init[..n] == ids[..n];
      LinksPrefix(init, n);
    } else {
      assert ids[..n] == ids;
    }
  }

  /** Two Facebook identifiers give one link, built from the first. */
  lemma FacebookTwice(fb: Identifier, fb2: Identifier)
    requires fb == Identifier(Some("FACEBOOK"), "jane") && fb2 == Identifier(Some("FACEBOOK"), "https://fb.me/j")
    ensures Links([fb, fb2]) == [SocialLink(Facebook, "https://facebook.com/jane")]
  {
    FacebookFirst(fb);
    assert [fb, fb2][..1] == [fb];
    var first := Links([fb]);
    assert first[0].platform == Facebook;
    ToUpperIdle("FACEBOOK");
    LaterIgnored(first, fb2);
  }

  lemma LaterIgnored(links: seq<SocialLink>, id: Identifier)
    requires HasPlatform(links, Facebook) && TypeText(id) == "FACEBOOK"
    ensures NewLink(links, id) == None
  {
    NotContainsByChar("FACEBOOK", "TWITTER", 0);
    NotContainsByChar("FACEBOOK", "INSTAGRAM", 0);
    NotContainsByChar("FACEBOOK", "YOUTUBE", 0);
  }

  /** A second Facebook identifier whose type also names Instagram falls
      through the Facebook test and gives an Instagram link. */
  lemma FacebookFallsThrough(fb: Identifier, mixed: Identifier)
    requires fb == Identifier(Some("FACEBOOK"), "jane") && mixed == Identifier(Some("FACEBOOK-INSTAGRAM"), "jd")
    ensures Links([fb, mixed])
            == [SocialLink(Facebook, "https://facebook.com/jane"), SocialLink(Instagram, "https://instagram.com/jd")]
  {
    FacebookFirst(fb);
    assert [fb, mixed][..1] == [fb];
    var first := Links([fb]);
    assert first[0].platform == Facebook;
    ToUpperIdle("FACEBOOK-INSTAGRAM");
    LaterFallsThrough(first, mixed);
    assert "https://instagram.com/" + "jd" == "https://instagram.com/jd";
  }

  lemma LaterFallsThrough(links: seq<SocialLink>, id: Identifier)
    requires links == [SocialLink(Facebook, "https://facebook.com/jane")]
    requires TypeText(id) == "FACEBOOK-INSTAGRAM"
    ensures NewLink(links, id) == Some(SocialLink(Instagram, UrlFor(Instagram, id.identifierValue)))
  {
    MixedTypeMentions(id);
    assert HasPlatform(links, Facebook) && !HasPlatform(links, Instagram) by {
      assert links[0].platform == Facebook;
    }
  }

  lemma MixedTypeMentions(id: Identifier)
    requires TypeText(id) == "FACEBOOK-INSTAGRAM"
    ensures !Mentions(id, "TWITTER") && Mentions(id, "INSTAGRAM")
  {
    MixedTypeNoTwitter(TypeText(id));
    PrefixIsContained("INSTAGRAM", "FACEBOOK-");
    assert "FACEBOOK-" + "INSTAGRAM" == TypeText(id);
  }

  lemma MixedTypeNoTwitter(t: string)
    requires t == "FACEBOOK-INSTAGRAM"
    ensures !Contains(t, "TWITTER")
  {
    NotContainsByChar(t, "TWITTER", 1);
  }

  /** A lone Facebook identifier with a bare value gives a link to the
      Facebook site. */
  lemma FacebookFirst(fb: Identifier)
    requires fb == Identifier(Some("FACEBOOK"), "jane")
    ensures Links([fb]) == [SocialLink(Facebook, "https://facebook.com/jane")]
  {
    ToUpperIdle("FACEBOOK");
    NotContainsByChar("FACEBOOK", "TWITTER", 0);
    ContainsSelf("FACEBOOK");
    assert "jane"[0] != "http"[0];
    assert !HasPlatform([], Facebook);
    assert "https://facebook.com/" + "jane" == "https://facebook.com/jane";
    assert NewLink([], fb) == Some(SocialLink(Facebook, "https://facebook.com/jane"));
    assert [fb][..0] == [];
  }
}
