/** The playlist-URL check of the downloader. The check is a full match of
    the pattern

      (https?://)?(www\.|m\.)?(youtube\.com|youtu\.be)/(playlist\?list=|watch\?.*?&list=)([a-zA-Z0-9_-]+)

    Here it is written twice: declaratively, as "the string is the
    concatenation of a scheme, a subdomain, a host, a route and an id"
    (`MatchesPattern`), and as a hand-written left-to-right parser
    (`ParseUrl`) whose success is the check (`IsPlaylistUrl`). The two are
    proved to agree on every string. */
module PlaylistUrl {
  import opened Text

  datatype Option<T> = None | Some(value: T)

  /** `(https?://)?` */
  datatype Scheme = NoScheme | Http | Https

  /** `(www\.|m\.)?` */
  datatype Subdomain = NoSubdomain | Www | Mobile

  /** `(youtube\.com|youtu\.be)` */
  datatype Host = YoutubeCom | YoutuBe

  /** `playlist\?list=` or `watch\?<query>&list=`; `.` in the pattern matches
      anything but a line feed, so a well-formed query holds no line feed. */
  datatype Route = PlaylistRoute | WatchRoute(query: string)

  /** The pieces a matching string is made of, in order. */
  datatype Parts = Parts(scheme: Scheme, subdomain: Subdomain, host: Host, route: Route, id: string)

  function SchemeText(s: Scheme): string
  {
    match s
    case NoScheme => ""
    case Http => "http://"
    case Https => "https://"
  }

  function SubdomainText(d: Subdomain): string
  {
    match d
    case NoSubdomain => ""
    case Www => "www."
    case Mobile => "m."
  }

  function HostText(h: Host): string
  {
    match h
    case YoutubeCom => "youtube.com"
    case YoutuBe => "youtu.be"
  }

  function RouteText(r: Route): string
  {
    match r
    case PlaylistRoute => "playlist?list="
    case WatchRoute(q) => "watch?" + q + "&list="
  }

  /** `[a-zA-Z0-9_-]` */
  predicate IsIdChar(c: char)
  {
    ('a' <= c <= 'z') || ('A' <= c <= 'Z') || ('0' <= c <= '9') || c == '_' || c == '-'
  }

  /** `[a-zA-Z0-9_-]+` */
  predicate IsId(s: string)
  {
    |s| > 0 && forall k :: 0 <= k < |s| ==> IsIdChar(s[k])
  }

  ghost predicate WellFormed(p: Parts)
  {
    IsId(p.id) && (p.route.WatchRoute? ==> '\n' !in p.route.query)
  }

  /** The string the pieces spell. */
  function Render(p: Parts): string
  {
    SchemeText(p.scheme) + (SubdomainText(p.subdomain) + (HostText(p.host) + ("/" + (RouteText(p.route) + p.id))))
  }

  /** Declarative reading of the full match. */
  ghost predicate MatchesPattern(s: string)
  {
    exists p :: WellFormed(p) && Render(p) == s
  }

  // ---------------------------------------------------------------------
  // The parser

  function ParseScheme(s: string): (r: (Scheme, string))
    ensures SchemeText(r.0) + r.1 == s
  {
    if HasPrefix(s, "https://") then (Https, s[8..])
    else if HasPrefix(s, "http://") then (Http, s[7..])
    else (NoScheme, s)
  }

  function ParseSubdomain(s: string): (r: (Subdomain, string))
    ensures SubdomainText(r.0) + r.1 == s
  {
    if HasPrefix(s, "www.") then (Www, s[4..])
    else if HasPrefix(s, "m.") then (Mobile, s[2..])
    else (NoSubdomain, s)
  }

  /** The host and the `/` after it. */
  function ParseHost(s: string): (r: Option<(Host, string)>)
    ensures r.Some? ==> HostText(r.value.0) + ("/" + r.value.1) == s
  {
    if HasPrefix(s, "youtube.com/") then
      assert s == "youtube.com" + ("/" + s[12..]);
      Some((YoutubeCom, s[12..]))
    else if HasPrefix(s, "youtu.be/") then
      assert s == "youtu.be" + ("/" + s[9..]);
      Some((YoutuBe, s[9..]))
    else None
  }

  /** The lazy `.*?&list=` followed by the id up to the end of the string:
      the first position `m >= k` at which `&list=` and then an id make up
      the rest of `r`, provided no line feed is crossed to get there. */
  function FindList(r: string, k: nat): (res: Option<nat>)
    requires k <= |r|
    ensures res.Some? ==> k <= res.value && res.value + 6 <= |r|
    ensures res.Some? ==> r[res.value..res.value + 6] == "&list=" && IsId(r[res.value + 6..])
    ensures res.Some? ==> forall m :: k <= m < res.value ==> r[m] != '\n'
    decreases |r| - k
  {
    if HasPrefix(r[k..], "&list=") && IsId(r[k + 6..]) then
      assert r[k..][..6] == r[k..k + 6];
      Some(k)
    else if k == |r| || r[k] == '\n' then None
    else FindList(r, k + 1)
  }

  /** The route and the id, which must run to the end of the string. */
  function ParseRoute(s: string): (r: Option<(Route, string)>)
    ensures r.Some? ==> IsId(r.value.1) && RouteText(r.value.0) + r.value.1 == s
    ensures r.Some? && r.value.0.WatchRoute? ==> '\n' !in r.value.0.query
  {
    if HasPrefix(s, "playlist?list=") then
      if IsId(s[14..]) then
        assert s == "playlist?list=" + s[14..];
        Some((PlaylistRoute, s[14..]))
      else None
    else if HasPrefix(s, "watch?") then
      match FindList(s[6..], 0)
      case None => None
      case Some(k) =>
        WatchSplit(s, k);
        Some((WatchRoute(s[6..][..k]), s[6..][k + 6..]))
    else None
  }

  lemma WatchSplit(s: string, k: nat)
    requires HasPrefix(s, "watch?") && k + 6 <= |s[6..]|
    requires s[6..][k..k + 6] == "&list="
    requires forall m :: 0 <= m < k ==> s[6..][m] != '\n'
    ensures "watch?" + s[6..][..k] + "&list=" + s[6..][k + 6..] == s
    ensures '\n' !in s[6..][..k]
  {
    var rest := s[6..];
    assert rest == rest[..k] + rest[k..k + 6] + rest[k + 6..];
    assert s == s[..6] + rest;
  }

  /** The pieces of `s`, or `None` when `s` does not match. */
  function ParseUrl(s: string): (r: Option<Parts>)
    ensures r.Some? ==> WellFormed(r.value) && Render(r.value) == s
  {
    var (scheme, afterScheme) := ParseScheme(s);
    var (subdomain, afterSubdomain) := ParseSubdomain(afterScheme);
    match ParseHost(afterSubdomain)
    case None => None
    case Some((host, afterHost)) =>
      match ParseRoute(afterHost)
      case None => None
      case Some((route, id)) => Some(Parts(scheme, subdomain, host, route, id))
  }

  /** `validate_url` without its highlighting side effect: true exactly when
      the whole string matches the pattern. */
  predicate IsPlaylistUrl(s: string)
  {
    ParseUrl(s).Some?
  }

  // ---------------------------------------------------------------------
  // Parsing a rendered URL gives its pieces back

  lemma ParseSchemeOf(sc: Scheme, rest: string)
    requires |rest| > 0 && rest[0] != 'h'
    ensures ParseScheme(SchemeText(sc) + rest) == (sc, rest)
  {
    var s := SchemeText(sc) + rest;
    SplitAfterPrefix(SchemeText(sc), rest);
    match sc
    case NoScheme =>
      NotPrefixAt(s, "https://", 0);
      NotPrefixAt(s, "http://", 0);
    case Http =>
      NotPrefixAt(s, "https://", 4);
    case Https =>
  }

  lemma ParseSubdomainOf(d: Subdomain, rest: string)
    requires |rest| > 0 && rest[0] == 'y'
    ensures ParseSubdomain(SubdomainText(d) + rest) == (d, rest)
  {
    var s := SubdomainText(d) + rest;
    SplitAfterPrefix(SubdomainText(d), rest);
    match d
    case NoSubdomain =>
      NotPrefixAt(s, "www.", 0);
      NotPrefixAt(s, "m.", 0);
    case Www =>
    case Mobile =>
      NotPrefixAt(s, "www.", 0);
  }

  lemma ParseHostOf(h: Host, rest: string)
    ensures ParseHost(HostText(h) + ("/" + rest)) == Some((h, rest))
  {
    var s := HostText(h) + ("/" + rest);
    assert s == (HostText(h) + "/") + rest;
    SplitAfterPrefix(HostText(h) + "/", rest);
    match h
    case YoutubeCom =>
    case YoutuBe =>
      NotPrefixAt(s, "youtube.com/", 5);
  }

  /** In `q + "&list=" + id` with no line feed in `q`, the lazy scan stops
      exactly after `q`: no earlier position is followed by `&list=` and an
      id, since the `&` that ends `q` would have to be part of either. */
  lemma FindListOf(q: string, id: string, k: nat)
    requires '\n' !in q && IsId(id) && k <= |q|
    ensures FindList(q + "&list=" + id, k) == Some(|q|)
    decreases |q| - k
  {
    var r := q + "&list=" + id;
    assert r[|q|] == '&';
    if k == |q| {
      assert r[k..] == "&list=" + id;
      assert r[k + 6..] == id;
    } else {
      assert r[k] == q[k] && r[k] != '\n';
      if |q| < k + 6 {
        NotPrefixAt(r[k..], "&list=", |q| - k);
      } else if HasPrefix(r[k..], "&list=") {
        assert r[k + 6..][|q| - (k + 6)] == '&';
      }
      FindListOf(q, id, k + 1);
    }
  }

  lemma ParseRouteOf(route: Route, id: string)
    requires IsId(id)
    requires route.WatchRoute? ==> '\n' !in route.query
    ensures ParseRoute(RouteText(route) + id) == Some((route, id))
  {
    var s := RouteText(route) + id;
    match route
    case PlaylistRoute =>
      SplitAfterPrefix("playlist?list=", id);
    case WatchRoute(q) =>
      assert s == "watch?" + (q + "&list=" + id);
      SplitAfterPrefix("watch?", q + "&list=" + id);
      NotPrefixAt(s, "playlist?list=", 0);
      FindListOf(q, id, 0);
      var rest := q + "&list=" + id;
      assert rest[..|q|] == q;
      assert rest[|q| + 6..] == id;
  }

  /** Round trip: parsing the string spelled by well-formed pieces gives
      back exactly those pieces. */
  lemma {:induction false} ParseRender(p: Parts)
    requires WellFormed(p)
    ensures ParseUrl(Render(p)) == Some(p)
  {
    var afterHost := RouteText(p.route) + p.id;
    var afterSubdomain := HostText(p.host) + ("/" + afterHost);
    var afterScheme := SubdomainText(p.subdomain) + afterSubdomain;
    assert afterSubdomain[0] == 'y' by {
      assert afterSubdomain[0] == HostText(p.host)[0];
    }
    ParseRouteOf(p.route, p.id);
    ParseHostOf(p.host, afterHost);
    ParseSubdomainOf(p.subdomain, afterSubdomain);
    assert afterScheme[0] != 'h' by {
      assert afterScheme[0] == (SubdomainText(p.subdomain) + afterSubdomain)[0];
      match p.subdomain
      case NoSubdomain =>
      case Www =>
      case Mobile =>
    }
    ParseSchemeOf(p.scheme, afterScheme);
  }

  /** The parser accepts exactly the strings that fully match the pattern. */
  lemma IsPlaylistUrlMatchesPattern(s: string)
    ensures IsPlaylistUrl(s) <==> MatchesPattern(s)
  {
    if IsPlaylistUrl(s) {
      assert WellFormed(ParseUrl(s).value) && Render(ParseUrl(s).value) == s;
    }
    if MatchesPattern(s) {
      var p :| WellFormed(p) && Render(p) == s;
      ParseRender(p);
    }
  }

  // ---------------------------------------------------------------------
  // What is accepted and what is rejected

  /** The first character of an accepted URL starts a scheme, a subdomain
      or a host; its last character is the last character of the id. */
  lemma AcceptedShape(s: string)
    requires IsPlaylistUrl(s)
    ensures |s| > 0 && IsIdChar(s[|s| - 1])
    ensures s[0] in "hwmy"
  {
    var p := ParseUrl(s).value;
    var t4 := RouteText(p.route) + p.id;
    var t3 := "/" + t4;
    var t2 := HostText(p.host) + t3;
    var t1 := SubdomainText(p.subdomain) + t2;
    assert s == SchemeText(p.scheme) + t1;
    assert s[|s| - 1] == t1[|t1| - 1] == t2[|t2| - 1] == t3[|t3| - 1] == t4[|t4| - 1] == p.id[|p.id| - 1];
    assert t2[0] == 'y';
    assert t1[0] in "wmy" by {
      match p.subdomain
      case NoSubdomain =>
      case Www =>
      case Mobile =>
    }
    match p.scheme
    case NoScheme =>
    case Http =>
    case Https =>
  }

  /** An accepted URL ends in `list=` followed by its id, whichever route
      it takes. */
  lemma ListParameter(s: string) returns (id: string)
    requires IsPlaylistUrl(s)
    ensures IsId(id) && HasSuffix(s, "list=" + id)
  {
    var p := ParseUrl(s).value;
    id := p.id;
    var route := RouteText(p.route);
    match p.route {
      case PlaylistRoute =>
        assert route[9..] == "list=";
      case WatchRoute(q) =>
        assert route == ("watch?" + q) + "&list=";
        SuffixOfConcat("watch?" + q, "&list=", "list=");
    }
    SuffixExtend(route, "list=", id);
    var t3 := "/" + (route + id);
    SuffixOfConcat("/", route + id, "list=" + id);
    SuffixOfConcat(HostText(p.host), t3, "list=" + id);
    SuffixOfConcat(SubdomainText(p.subdomain), HostText(p.host) + t3, "list=" + id);
    SuffixOfConcat(SchemeText(p.scheme), SubdomainText(p.subdomain) + (HostText(p.host) + t3), "list=" + id);
  }

  lemma RejectsEmpty()
    ensures !IsPlaylistUrl("")
  {
    if IsPlaylistUrl("") {
      AcceptedShape("");
    }
  }

  /** A URL whose `list=` is not followed by at least one id character. */
  lemma RejectsMissingId(s: string)
    requires HasSuffix(s, "list=")
    ensures !IsPlaylistUrl(s)
  {
    assert s[|s| - 1] == s[|s| - 5..][4] == '=';
    if IsPlaylistUrl(s) {
      AcceptedShape(s);
    }
  }

  /** A character outside `[A-Za-z0-9_-]` after an otherwise valid URL. */
  lemma RejectsTrailingJunk(s: string, c: char)
    requires !IsIdChar(c)
    ensures !IsPlaylistUrl(s + [c])
  {
    if IsPlaylistUrl(s + [c]) {
      AcceptedShape(s + [c]);
    }
  }

  /** A character that cannot start a scheme, subdomain or host, such as a
      blank, in front of a URL. */
  lemma RejectsLeadingJunk(c: char, s: string)
    requires c !in "hwmy"
    ensures !IsPlaylistUrl([c] + s)
  {
    if IsPlaylistUrl([c] + s) {
      AcceptedShape([c] + s);
    }
  }
}
