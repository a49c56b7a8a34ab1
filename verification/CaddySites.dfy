/** Which site of the generated file each route belongs to, and what stands in it. */
module CaddySites {
  import opened Domains
  import opened CaddyLines
  import opened CaddyRoutes
  import opened CaddyNesting
  import opened CaddyTheorems
  import opened CaddyFile

  // ----- zones by their dots

  function Dots(s: string): nat {
    if s == "" then 0 else (if s[0] == '.' then 1 else 0) + Dots(s[1..])
  }

  lemma {:induction false} DotsConcat(a: string, b: string)
    ensures Dots(a + b) == Dots(a) + Dots(b)
  {
    if a == "" {
      assert a + b == b;
    } else {
      assert (a + b)[1..] == a[1..] + b;
      DotsConcat(a[1..], b);
    }
  }

  lemma {:induction false} SplitCounts(s: string)
    ensures |SplitDots(s)| == Dots(s) + 1
    ensures forall i :: 0 <= i < |SplitDots(s)| ==> Dots(SplitDots(s)[i]) == 0
  {
    if s != "" {
      var rest := SplitDots(s[1..]);
      SplitCounts(s[1..]);
      if s[0] != '.' {
        assert ([s[0]] + rest[0])[1..] == rest[0];
      }
    }
  }

  /** A zone has one dot, if its host has any. */
  lemma ZoneDots(h: string)
    requires IsHostname(h)
    ensures Dots(HostZone(h)) == if Dots(h) == 0 then 0 else 1
  {
    HostnameIsFixed(h);
    SplitCounts(h);
    var parts := SplitDots(h);
    if |parts| >= 2 {
      DotsConcat(parts[|parts| - 2] + ".", parts[|parts| - 1]);
      DotsConcat(parts[|parts| - 2], ".");
      assert "."[1..] == "" && Dots(".") == 1;
    }
  }

  /** What is at the end of a name after a dot, or is the whole name. */
  predicate EndsIn(h: string, z: string) {
    h == z || (|z| < |h| && h[|h| - |z| - 1..] == "." + z)
  }

  lemma EndOfEnd(h: string, y: string, z: string) returns (k: nat)
    requires EndsIn(h, y) && EndsIn(h, z) && |y| < |z|
    ensures k <= |z| && z == z[..k] + ("." + y)
  {
    k := |z| - |y| - 1;
    EndIsSlice(h, z);
    assert z[k..] == h[|h| - |y| - 1..];
    assert z == z[..k] + z[k..];
  }

  lemma ShorterEndHasFewerDots(h: string, y: string, z: string)
    requires EndsIn(h, y) && EndsIn(h, z) && |y| < |z|
    ensures Dots(y) < Dots(z)
  {
    var k := EndOfEnd(h, y, z);
    DotsConcat(z[..k], "." + y);
    DotsConcat(".", y);
    assert "."[1..] == "" && Dots(".") == 1;
  }

  /** The zone is the one end of the host with one dot; a host without dots is its own zone. */
  lemma ZoneIsOnly(h: string, z: string)
    requires IsHostname(h)
    ensures z == HostZone(h) <==> EndsIn(h, z) && Dots(z) == if Dots(h) == 0 then 0 else 1
  {
    ZoneOfHost(h);
    ZoneDots(h);
    var zone := HostZone(h);
    if EndsIn(h, z) && Dots(z) == Dots(zone) && z != zone {
      if |z| < |zone| {
        ShorterEndHasFewerDots(h, z, zone);
      } else if |zone| < |z| {
        ShorterEndHasFewerDots(h, zone, z);
      } else {
        EndsOfOneLength(h, z, zone);
      }
    }
  }

  lemma EndsOfOneLength(h: string, y: string, z: string)
    requires EndsIn(h, y) && EndsIn(h, z) && |y| == |z|
    ensures y == z
  {
    EndIsSlice(h, y);
    EndIsSlice(h, z);
  }

  lemma EndIsSlice(h: string, z: string)
    requires EndsIn(h, z)
    ensures z == h[|h| - |z|..]
  {
  }

  /** A host is strictly below its zone exactly when it has two dots or more. */
  lemma BelowItsZoneIff(h: string)
    requires IsHostname(h)
    ensures |HostZone(h)| < |h| && h[|h| - |HostZone(h)| - 1..] == "." + HostZone(h) <==> Dots(h) >= 2
    ensures h == HostZone(h) <==> Dots(h) < 2
  {
    ZoneOfHost(h);
    ZoneDots(h);
    var z := HostZone(h);
    if h != z {
      ShorterEndHasFewerDots(h, z, h);
    }
  }

  // ----- which site a route belongs to

  lemma {:induction false} HostAmong(routes: seq<Route>, r: Route)
    requires r in routes
    ensures r.hostname in Hosts(routes)
  {
    var front, last := routes[..|routes| - 1], routes[|routes| - 1];
    assert routes == front + [last];
    if r in front {
      HostAmong(front, r);
    }
  }

  lemma {:induction false} ZoneAmong(routes: seq<Route>, r: Route)
    requires r in routes
    ensures HostZone(r.hostname) in ZoneNames(routes)
  {
    var front, last := routes[..|routes| - 1], routes[|routes| - 1];
    assert routes == front + [last];
    if r in front {
      ZoneAmong(front, r);
    }
  }

  lemma {:induction false} StarAmong(zones: seq<string>, zone: string)
    requires zone in zones
    ensures "*." + zone in Stars(zones)
  {
    var front, last := zones[..|zones| - 1], zones[|zones| - 1];
    assert zones == front + [last];
    if zone in front {
      StarAmong(front, zone);
    }
  }

  lemma {:induction false} InOfZone(routes: seq<Route>, r: Route)
    requires r in routes
    ensures r in OfZone(routes, HostZone(r.hostname))
  {
    var front, last := routes[..|routes| - 1], routes[|routes| - 1];
    assert routes == front + [last];
    if r in front {
      InOfZone(front, r);
    }
  }

  lemma {:induction false} InApexOrBelow(routes: seq<Route>, r: Route, zone: string)
    requires r in routes
    ensures if r.hostname == zone then r in Apex(routes, zone) else r in Below(routes, zone)
  {
    var front, last := routes[..|routes| - 1], routes[|routes| - 1];
    assert routes == front + [last];
    if r in front {
      InApexOrBelow(front, r, zone);
    }
  }

  /** The sites of one zone are among those of all. */
  lemma {:induction false} ZoneSitesAmong(routes: seq<Route>, zones: seq<string>, zone: string, site: string)
    requires zone in zones
    requires || site in Hosts(Apex(OfZone(routes, zone), zone))
             || (site == "*." + zone && Below(OfZone(routes, zone), zone) != [])
    ensures site in ZoneSites(routes, zones)
  {
    var front, last := zones[..|zones| - 1], zones[|zones| - 1];
    assert zones == front + [last];
    if zone in front {
      ZoneSitesAmong(routes, front, zone, site);
    }
  }

  /** The site that a production route belongs to behind wildcard certificates: a host with two dots or
      more is strictly below the wildcard of its zone, any other has a site of its own. */
  lemma ProductionSite(production: seq<Route>, r: Route)
    requires GoodRoutes(production) && r in production && IsHostname(r.hostname)
    ensures if Dots(r.hostname) >= 2 then "*." + HostZone(r.hostname) in ZoneSites(production, Zones(production))
            else r.hostname in ZoneSites(production, Zones(production))
  {
    var zone := HostZone(r.hostname);
    ZonesSorted(production);
    ZoneAmong(production, r);
    InOfZone(production, r);
    InApexOrBelow(OfZone(production, zone), r, zone);
    BelowItsZoneIff(r.hostname);
    if r.hostname == zone {
      HostAmong(Apex(OfZone(production, zone), zone), r);
      ZoneSitesAmong(production, Zones(production), zone, r.hostname);
    } else {
      ZoneSitesAmong(production, Zones(production), zone, "*." + zone);
    }
  }

  lemma PreviewSite(preview: seq<Route>, r: Route)
    requires r in preview
    ensures "*." + HostZone(r.hostname) in Stars(Zones(preview))
  {
    ZonesSorted(preview);
    ZoneAmong(preview, r);
    StarAmong(Zones(preview), HostZone(r.hostname));
  }

  /** The site whose block serves a route, in every mode. */
  function SiteOf(r: Route, m: Mode): string {
    if r.kind.Custom? || !m.wildcardTls then r.hostname
    else if r.kind.Preview? then if m.isolatePreviews then r.hostname else "*." + HostZone(r.hostname)
    else if Dots(r.hostname) >= 2 then "*." + HostZone(r.hostname)
    else r.hostname
  }

  lemma SitesHold(custom: seq<Route>, production: seq<Route>, preview: seq<Route>, m: Mode, r: Route)
    requires GoodRoutes(custom) && GoodRoutes(production) && GoodRoutes(preview) && IsHostname(r.hostname)
    requires match r.kind case Custom => r in custom case Production => r in production case Preview => r in preview
    ensures SiteOf(r, m) in IntendedSites(custom, production, preview, m)
  {
    match r.kind
    case Custom => HostAmong(custom, r);
    case Production => ProductionHeld(production, preview, m, r);
    case Preview => PreviewHeld(production, preview, m, r);
  }

  lemma ProductionHeld(production: seq<Route>, preview: seq<Route>, m: Mode, r: Route)
    requires GoodRoutes(production) && IsHostname(r.hostname) && r.kind.Production? && r in production
    ensures if m.wildcardTls then SiteOf(r, m) in ZoneSites(production, Zones(production))
            else SiteOf(r, m) in Hosts(production + preview)
  {
    if m.wildcardTls {
      ProductionSite(production, r);
    } else {
      assert r in production + preview;
      HostAmong(production + preview, r);
    }
  }

  lemma PreviewHeld(production: seq<Route>, preview: seq<Route>, m: Mode, r: Route)
    requires r.kind.Preview? && r in preview
    ensures SiteOf(r, m) in (if !m.wildcardTls then Hosts(production + preview)
                             else if m.isolatePreviews then Hosts(preview) else Stars(Zones(preview)))
  {
    if !m.wildcardTls {
      assert r in production + preview;
      HostAmong(production + preview, r);
    } else if m.isolatePreviews {
      HostAmong(preview, r);
    } else {
      PreviewSite(preview, r);
    }
  }

  /** A site address covers a host: it is the host, or a wildcard one label or more above it. */
  predicate Covers(site: string, h: string) {
    site == h || (|site| >= 2 && site[..2] == "*." && |site| - 2 < |h| && h[|h| - |site| + 1..] == site[1..])
  }

  /** Every route's site covers its host, but for one family: a preview host with less than two dots,
      behind a wildcard that previews share, is not below that wildcard. */
  lemma SiteCoversIff(r: Route, m: Mode)
    requires IsHostname(r.hostname)
    ensures Covers(SiteOf(r, m), r.hostname) <==>
      !(r.kind.Preview? && m.wildcardTls && !m.isolatePreviews && Dots(r.hostname) < 2)
  {
    var h := r.hostname;
    var zone := HostZone(h);
    BelowItsZoneIff(h);
    ZoneOfHost(h);
    var star := "*." + zone;
    assert star[..2] == "*." && star[1..] == "." + zone;
    assert star[0] == '*' && h[0] != '*';
  }

  /** A wildcard that stands for one label only, as in section 6.4.3 of RFC 6125. */
  predicate CoversOneLabel(site: string, h: string) {
    Covers(site, h) && (site == h || '.' !in h[..|h| - |site| + 1])
  }

  lemma {:induction false} NoDots(s: string)
    ensures Dots(s) == 0 <==> '.' !in s
  {
    if s != "" {
      NoDots(s[1..]);
      assert s == [s[0]] + s[1..];
    }
  }

  lemma LabelAbove(h: string)
    requires IsHostname(h) && Dots(h) >= 2 && |HostZone(h)| < |h|
    ensures '.' !in h[..|h| - |HostZone(h)| - 1] <==> Dots(h) == 2
  {
    var zone := HostZone(h);
    var above := h[..|h| - |zone| - 1];
    BelowItsZoneIff(h);
    ZoneDots(h);
    assert h == above + ("." + zone);
    DotsConcat(above, "." + zone);
    DotsConcat(".", zone);
    assert "."[1..] == "" && Dots(".") == 1;
    NoDots(above);
  }

  /** Is the route behind a wildcard? */
  predicate BehindWildcard(r: Route, m: Mode) {
    && m.wildcardTls
    && (|| (r.kind.Preview? && !m.isolatePreviews)
        || (r.kind.Production? && Dots(r.hostname) >= 2))
  }

  /** Taken to stand for one label, the sites cover the hosts of all routes but those behind a wildcard
      whose host has more or less than two dots. */
  lemma OneLabelCoversIff(r: Route, m: Mode)
    requires IsHostname(r.hostname)
    ensures CoversOneLabel(SiteOf(r, m), r.hostname) <==> !(BehindWildcard(r, m) && Dots(r.hostname) != 2)
  {
    var h, star := r.hostname, "*." + HostZone(r.hostname);
    SiteCoversIff(r, m);
    assert star[0] == '*' && h[0] != '*';
    if BehindWildcard(r, m) && Dots(h) >= 2 {
      BelowItsZoneIff(h);
      LabelAbove(h);
    }
  }

  // ----- which routes are collected

  /** A project's domain yields a route exactly when its normal form is a host name and the port is
      set; the route has that name and port, and the given kind. */
  lemma RouteForIs(domain: string, port: nat, name: string, kind: Kind)
    requires Trimmed(NormalizeDomain(domain))
    ensures RouteFor(domain, port, name, kind) ==
      if IsHostname(NormalizeDomain(domain)) && port != 0
      then [Route(NormalizeDomain(domain), port, SanitizeLabel(name), kind)] else []
  {
    var host := NormalizeDomain(domain);
    NormalizeIsBare(domain);
    if IsSafeCaddyHostname(host) {
      SafeIsHostnameIff(host);
    }
    if IsHostname(host) {
      HostnameIsFixed(host);
    }
  }

  ghost predicate Offers(p: Project, r: Route) {
    match r.kind
    case Production => r in RouteFor(p.domain, p.port, p.name, Production)
    case Preview => r in RouteFor(p.previewDomain, p.previewPort, p.name, Preview)
    case Custom => p.customEnabled && r in RouteFor(p.customDomain, p.port, p.name, Custom)
  }

  ghost predicate SomeOffers(projects: seq<Project>, r: Route) {
    exists i :: 0 <= i < |projects| && Offers(projects[i], r)
  }

  lemma OffersMore(front: seq<Project>, last: Project, r: Route)
    ensures SomeOffers(front + [last], r) <==> SomeOffers(front, r) || Offers(last, r)
  {
    if SomeOffers(front, r) {
      var i :| 0 <= i < |front| && Offers(front[i], r);
      assert (front + [last])[i] == front[i];
    }
    if Offers(last, r) {
      assert (front + [last])[|front|] == last;
    }
  }

  /** Each kind of route is collected from its own domain and port: the production domain and port, the
      preview's own, or the custom domain where that is enabled. */
  lemma {:induction false} CollectedIff(projects: seq<Project>, r: Route)
    ensures r in ProductionRoutes(projects) <==> r.kind.Production? && SomeOffers(projects, r)
    ensures r in PreviewRoutes(projects) <==> r.kind.Preview? && SomeOffers(projects, r)
    ensures r in CustomRoutes(projects) <==> r.kind.Custom? && SomeOffers(projects, r)
  {
    if projects != [] {
      var front, p := projects[..|projects| - 1], projects[|projects| - 1];
      assert projects == front + [p];
      CollectedIff(front, r);
      OffersMore(front, p, r);
    }
  }

  // ----- what stands in a block

  ghost predicate Has(ls: seq<Line>, text: Text) {
    exists i :: 0 <= i < |ls| && ls[i].text == text
  }

  lemma HasConcat(a: seq<Line>, b: seq<Line>, text: Text)
    ensures Has(a + b, text) <==> Has(a, text) || Has(b, text)
  {
    if Has(a, text) {
      var i :| 0 <= i < |a| && a[i].text == text;
      assert (a + b)[i] == a[i];
    }
    if Has(b, text) {
      var i :| 0 <= i < |b| && b[i].text == text;
      assert (a + b)[|a| + i] == b[i];
    }
  }

  lemma HasOne(l: Line, text: Text)
    ensures Has([l], text) <==> l.text == text
  {
    assert [l][0] == l;
  }

  lemma InsideBlock(head: string, inside: seq<Line>, indent: nat, text: Text)
    requires Has(inside, text)
    ensures Has(InBlock(head, inside, indent), text)
  {
    HasConcat([Line(indent, Block(head))], inside, text);
    HasConcat([Line(indent, Block(head))] + inside, [Line(indent, Close)], text);
  }

  lemma {:induction false} HeaderLeafAmong(prefix: string, names: seq<string>, indent: nat, k: nat)
    requires k < |names|
    ensures Has(HeaderLeaves(prefix, names, indent), Leaf(prefix + names[k]))
  {
    HasConcat([Line(indent, Leaf(prefix + names[0]))], HeaderLeaves(prefix, names[1..], indent),
              Leaf(prefix + names[k]));
    HasOne(Line(indent, Leaf(prefix + names[0])), Leaf(prefix + names[k]));
    if k > 0 {
      HeaderLeafAmong(prefix, names[1..], indent, k - 1);
    }
  }

  /** The six headers that a preview must not send, and the three that are set. */
  ghost predicate FrameLines(ls: seq<Line>, m: Mode) {
    && Has(ls, Leaf("-" + "X-Frame-Options"))
    && Has(ls, Leaf("-" + "Cross-Origin-Opener-Policy"))
    && Has(ls, Leaf("-" + "Cross-Origin-Embedder-Policy"))
    && Has(ls, Leaf("-" + "Cross-Origin-Resource-Policy"))
    && Has(ls, Leaf("-" + "Strict-Transport-Security"))
    && Has(ls, Leaf("-" + "Permissions-Policy"))
    && Has(ls, Leaf("Cross-Origin-Resource-Policy" + " cross-origin"))
    && Has(ls, Leaf("Access-Control-Allow-Origin " + OriginOf(m.corsOrigin)))
    && Has(ls, Leaf("Content-Security-Policy \"" + m.frameCsp + "\""))
  }

  lemma StrippedAmong(m: Mode, indent: nat, k: nat)
    requires k < 6
    ensures Has(FrameHeaders(m, indent), Leaf("-" + STRIP_HEADERS[k]))
  {
    var names := STRIP_HEADERS[..6];
    HeaderLeafAmong("-", names, indent + 4, k);
    HasConcat(HeaderLeaves("-", names, indent + 4), SetHeaders(m, indent + 4), Leaf("-" + STRIP_HEADERS[k]));
    InsideBlock("header", HeaderLeaves("-", names, indent + 4) + SetHeaders(m, indent + 4), indent,
                Leaf("-" + STRIP_HEADERS[k]));
  }

  lemma SetAmong(m: Mode, indent: nat, k: nat)
    requires k < 3
    ensures Has(FrameHeaders(m, indent), SetHeaders(m, indent + 4)[k].text)
  {
    var text := SetHeaders(m, indent + 4)[k].text;
    assert Has(SetHeaders(m, indent + 4), text);
    HasConcat(HeaderLeaves("-", STRIP_HEADERS[..6], indent + 4), SetHeaders(m, indent + 4), text);
    InsideBlock("header", HeaderLeaves("-", STRIP_HEADERS[..6], indent + 4) + SetHeaders(m, indent + 4), indent, text);
  }

  lemma SetTexts(m: Mode, indent: nat)
    ensures SetHeaders(m, indent)[0].text == Leaf("Cross-Origin-Resource-Policy" + " cross-origin")
    ensures SetHeaders(m, indent)[1].text == Leaf("Access-Control-Allow-Origin " + OriginOf(m.corsOrigin))
    ensures SetHeaders(m, indent)[2].text == Leaf("Content-Security-Policy \"" + m.frameCsp + "\"")
  {
  }

  lemma FrameHeadersSay(m: Mode, indent: nat)
    ensures FrameLines(FrameHeaders(m, indent), m)
  {
    StrippedAmong(m, indent, 0);
    StrippedAmong(m, indent, 1);
    StrippedAmong(m, indent, 2);
    StrippedAmong(m, indent, 3);
    StrippedAmong(m, indent, 4);
    StrippedAmong(m, indent, 5);
    SetTexts(m, indent + 4);
    SetAmong(m, indent, 0);
    SetAmong(m, indent, 1);
    SetAmong(m, indent, 2);
  }

  /** The allowed origin is never empty and has no quote or line end; one that is fit is kept. */
  lemma {:induction false} CleanOriginIs(origin: string)
    ensures forall c :: c in CleanOrigin(origin) ==> c in origin && c != '"' && c != '\n' && c != '\r'
    ensures (forall c :: c in origin ==> c != '"' && c != '\n' && c != '\r') ==> CleanOrigin(origin) == origin
  {
    if origin != "" {
      assert origin == [origin[0]] + origin[1..] && origin[0] in origin && forall c :: c in origin[1..] ==> c in origin;
      CleanOriginIs(origin[1..]);
    }
  }

  lemma OriginIs(origin: string)
    ensures OriginOf(origin) != ""
    ensures origin != "" && (forall c :: c in origin ==> c != '"' && c != '\n' && c != '\r') ==>
      OriginOf(origin) == origin
    ensures OriginOf(origin) != "https://sycord.com" ==>
      forall c :: c in OriginOf(origin) ==> c != '"' && c != '\n' && c != '\r'
  {
    CleanOriginIs(origin);
  }

  /** The dedicated certificate goes by DNS, with pinned resolvers and a long propagation timeout. */
  ghost predicate TlsLines(ls: seq<Line>) {
    && Has(ls, Block("tls")) && Has(ls, Secret("dns cloudflare"))
    && Has(ls, Leaf("resolvers 1.1.1.1 8.8.8.8")) && Has(ls, Leaf("propagation_timeout" + " 5m"))
  }

  lemma DedicatedTlsSays(indent: nat)
    ensures TlsLines(DedicatedTls(indent))
  {
    var ls := DedicatedTls(indent);
    assert ls[0].text == Block("tls") && ls[1].text == Secret("dns cloudflare");
    assert ls[2].text == Leaf("resolvers 1.1.1.1 8.8.8.8") && ls[3].text == Leaf("propagation_timeout" + " 5m");
  }

  lemma ProxySays(port: nat, strip: bool, indent: nat, k: nat)
    requires k < 7
    ensures strip ==> Has(ReverseProxy(port, strip, indent), Leaf("header_down -" + STRIP_HEADERS[k]))
    ensures !strip ==> ReverseProxy(port, strip, indent) == [Line(indent, Proxy(port, true)), Line(indent, Close)]
  {
    if strip {
      var leaves := HeaderLeaves("header_down -", STRIP_HEADERS, indent + 4);
      var text := Leaf("header_down -" + STRIP_HEADERS[k]);
      HeaderLeafAmong("header_down -", STRIP_HEADERS, indent + 4, k);
      HasConcat([Line(indent, Proxy(port, true))], leaves, text);
      HasConcat([Line(indent, Proxy(port, true))] + leaves, [Line(indent, Close)], text);
    }
  }

  /** In every kind of block a preview has the header lines; an isolated one has its own certificate. */
  lemma PreviewBlocksSay(r: Route, m: Mode)
    requires r.kind.Preview?
    ensures FrameLines(HostInside(r, m), m) && FrameLines(HandleInside(r, m), m) && FrameLines(PreviewInside(r, m), m)
    ensures TlsLines(PreviewInside(r, m))
  {
    HostSays(r, m);
    HandleSays(r, m);
    IsolatedSays(r, m);
  }

  lemma HostSays(r: Route, m: Mode)
    requires r.kind.Preview?
    ensures FrameLines(HostInside(r, m), m)
  {
    FrameHeadersSay(m, 4);
    StaysThere([], FrameHeaders(m, 4), ReverseProxy(r.port, true, 4), m);
    EmptyFirst(FrameHeaders(m, 4));
  }

  lemma EmptyFirst(ls: seq<Line>)
    ensures [] + ls == ls
  {
  }

  lemma HandleSays(r: Route, m: Mode)
    requires r.kind.Preview?
    ensures FrameLines(HandleInside(r, m), m)
  {
    FrameHeadersSay(m, 8);
    StaysThere([Line(8, Note(SanitizeLabel(r.title) + " (" + KindName(r.kind) + ")"))], FrameHeaders(m, 8),
               ReverseProxy(r.port, true, 8), m);
  }

  lemma IsolatedSays(r: Route, m: Mode)
    ensures FrameLines(PreviewInside(r, m), m) && TlsLines(PreviewInside(r, m))
  {
    FrameHeadersSay(m, 4);
    DedicatedTlsSays(4);
    StaysThere(DedicatedTls(4), FrameHeaders(m, 4), ReverseProxy(r.port, true, 4), m);
    TlsStays(DedicatedTls(4), FrameHeaders(m, 4));
    TlsStays(DedicatedTls(4) + FrameHeaders(m, 4), ReverseProxy(r.port, true, 4));
  }

  lemma StaysThere(a: seq<Line>, b: seq<Line>, c: seq<Line>, m: Mode)
    requires FrameLines(b, m)
    ensures FrameLines(a + b + c, m)
  {
    forall text | Has(b, text)
      ensures Has(a + b + c, text)
    {
      HasConcat(a, b, text);
      HasConcat(a + b, c, text);
    }
  }

  lemma TlsStays(a: seq<Line>, b: seq<Line>)
    requires TlsLines(a)
    ensures TlsLines(a + b)
  {
    forall text | Has(a, text)
      ensures Has(a + b, text)
    {
      HasConcat(a, b, text);
    }
  }

  /** A production host's block only hands over to its port. */
  lemma ProductionBlocksSay(r: Route, m: Mode)
    requires !r.kind.Preview?
    ensures HostInside(r, m) == [Line(4, Proxy(r.port, true)), Line(4, Close)]
    ensures HandleInside(r, m)[1..] == [Line(8, Proxy(r.port, true)), Line(8, Close)]
  {
    ProxySays(r.port, false, 4, 0);
    ProxySays(r.port, false, 8, 0);
  }

  /** A shared wildcard has its certificate by DNS. */
  lemma WildcardSays(zone: string, routes: seq<Route>, m: Mode)
    ensures Has(WildcardZone(zone, routes, m), Secret("dns cloudflare"))
  {
    var ls := WildcardZone(zone, routes, m);
    assert ls[3].text == Secret("dns cloudflare");
  }

  // ----- matcher names

  /** A matcher name has at most 56 characters, and each stands for the one of the host at its place. */
  lemma {:induction false} MatcherCharsAre(s: string)
    ensures |MatcherChars(s)| == |s|
    ensures forall i :: 0 <= i < |s| ==>
      MatcherChars(s)[i] == if 'a' <= s[i] <= 'z' || '0' <= s[i] <= '9' then s[i] else '_'
  {
    if s != "" {
      MatcherCharsAre(s[1..]);
    }
  }

  lemma MatcherNameIs(h: string)
    requires IsHostname(h)
    ensures |MatcherName(h)| == if |h| <= 56 then |h| else 56
    ensures forall i :: 0 <= i < |MatcherName(h)| ==>
      MatcherName(h)[i] == if h[i] == '.' || h[i] == '-' then '_' else h[i]
  {
    LowerIsLower(h);
    HostnameIsLower(h);
    MatcherCharsAre(h);
  }

  lemma HostnameIsLower(h: string)
    requires IsHostname(h)
    ensures IsLower(h)
  {
    forall c | c in h
      ensures !('A' <= c <= 'Z')
    {
      var i :| 0 <= i < |h| && h[i] == c;
      assert HostChar(h[i]);
    }
  }
}
