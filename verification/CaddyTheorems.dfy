/** The generated Caddyfile as a whole: the readers agree on its sites, and no route is lost. */
module CaddyTheorems {
  import opened Domains
  import opened CaddyLines
  import opened CaddyReading
  import opened CaddyRoutes
  import opened CaddyNesting

  /** Routes with proper host names; this is what collecting guarantees for stored domains whose
      normal form has no white space around it. */
  ghost predicate GoodRoutes(routes: seq<Route>) {
    forall i :: 0 <= i < |routes| ==> IsHostname(routes[i].hostname)
  }

  function PairOf(r: Route): (string, string) {
    (r.hostname, Digits(r.port))
  }

  /** Each route's host with its own port. */
  function Pairs(routes: seq<Route>): seq<(string, string)> {
    if routes == [] then [] else Pairs(routes[..|routes| - 1]) + [PairOf(routes[|routes| - 1])]
  }

  function Hosts(routes: seq<Route>): seq<string> {
    if routes == [] then [] else Hosts(routes[..|routes| - 1]) + [routes[|routes| - 1].hostname]
  }

  /** What a part of the file amounts to: whole sites, these addresses, these routes. */
  ghost predicate Part(ls: seq<Line>, sites: seq<string>, pairs: seq<(string, string)>) {
    Leads(ls, 0, 0) && Heads(ls) == sites && forall current :: Served(ls, current) == pairs
  }

  lemma PartConcat(a: seq<Line>, b: seq<Line>, sa: seq<string>, sb: seq<string>,
                   pa: seq<(string, string)>, pb: seq<(string, string)>)
    requires Part(a, sa, pa) && Part(b, sb, pb)
    ensures Part(a + b, sa + sb, pa + pb)
  {
    LeadsConcat(a, b, 0, 0, 0);
    HeadsConcat(a, b);
    forall current
      ensures Served(a + b, current) == pa + pb
    {
      ServedConcat(a, b, current);
    }
  }

  lemma EmptyPart()
    ensures Part([], [], [])
  {
  }

  /** A site around lines that serve one host. */
  lemma SitePart(note: string, address: string, inside: seq<Line>, pairs: seq<(string, string)>)
    requires Tame(note) && GoodText(address) && Trimmed(address) && NotProxy(address + " {")
    requires Leads(inside, 1, 1) && Indented(inside) && Served(inside, address) == pairs
    ensures Part(Site(note, address, inside), [address], pairs)
  {
    SiteLeads(note, address, inside, "");
    forall current
      ensures Served(Site(note, address, inside), current) == pairs
    {
      SiteLeads(note, address, inside, current);
    }
  }

  lemma BareProxy(port: nat, current: string)
    ensures Leads([Line(4, Proxy(port, false))], 1, 1)
    ensures Served([Line(4, Proxy(port, false))], current) == [(current, Digits(port))]
  {
    LineLeads(Line(4, Proxy(port, false)), 1);
    OneLine(Line(4, Proxy(port, false)), current);
  }

  lemma NoteIsTame(name: string, rest: string)
    requires Tame(rest)
    ensures Tame(SanitizeLabel(name) + rest)
  {
    LabelIsTame(name);
  }

  lemma CustomPart(r: Route)
    requires IsHostname(r.hostname)
    ensures Part(CustomBlock(r), [r.hostname], [PairOf(r)])
  {
    HostHead(r.hostname);
    assert Tame(" \U{2014} custom TLS");
    NoteIsTame(r.title, " \U{2014} custom TLS");
    BareProxy(r.port, r.hostname);
    SitePart(SanitizeLabel(r.title) + " \U{2014} custom TLS", r.hostname, [Line(4, Proxy(r.port, false))], [PairOf(r)]);
  }

  lemma ApexPart(r: Route)
    requires IsHostname(r.hostname)
    ensures Part(ApexBlock(r), [r.hostname], [PairOf(r)])
  {
    HostnameIsFixed(r.hostname);
    HostHead(r.hostname);
    assert Tame(" \U{2014} apex");
    NoteIsTame(r.title, " \U{2014} apex");
    BareProxy(r.port, r.hostname);
    SitePart(SanitizeLabel(r.title) + " \U{2014} apex", r.hostname, [Line(4, Proxy(r.port, false))], [PairOf(r)]);
  }

  /** Quiet lines and then a proxy serve the current host, once. */
  lemma QuietThenProxy(quiet: seq<Line>, port: nat, strip: bool, indent: nat, d: nat, current: string)
    requires Quiet(quiet) && Leads(quiet, d, d) && indent > 0 && d >= 1
    ensures var ls := quiet + ReverseProxy(port, strip, indent);
      && Leads(ls, d, d) && Indented(ls)
      && Served(ls, current) == [(current, Digits(port))] && LastHost(ls, current) == current
  {
    ReverseProxyLeads(port, strip, indent, d, current);
    LeadsConcat(quiet, ReverseProxy(port, strip, indent), d, d, d);
    QuietServes(quiet, current);
    ServedConcat(quiet, ReverseProxy(port, strip, indent), current);
  }

  lemma HostInsideServes(r: Route, m: Mode)
    requires GoodMode(m)
    ensures Leads(HostInside(r, m), 1, 1) && Indented(HostInside(r, m))
    ensures Served(HostInside(r, m), r.hostname) == [PairOf(r)]
  {
    FrameHeadersLead(m, 4, 1);
    QuietThenProxy(if r.kind.Preview? then FrameHeaders(m, 4) else [], r.port, r.kind.Preview?, 4, 1, r.hostname);
  }

  /** A site of one route. */
  lemma RoutePart(note: string, r: Route, inside: seq<Line>)
    requires IsHostname(r.hostname) && Tame(note)
    requires Leads(inside, 1, 1) && Indented(inside) && Served(inside, r.hostname) == [PairOf(r)]
    ensures Part(Site(note, r.hostname, inside), [r.hostname], [PairOf(r)])
  {
    HostHead(r.hostname);
    SitePart(note, r.hostname, inside, [PairOf(r)]);
  }

  lemma HostNoteIsTame(r: Route)
    ensures Tame(SanitizeLabel(r.title) + " \U{2014} " + KindName(r.kind))
  {
    LabelIsTame(r.title);
    assert Tame(" \U{2014} ") && Tame(KindName(r.kind));
  }

  lemma HostPart(r: Route, m: Mode)
    requires IsHostname(r.hostname) && GoodMode(m)
    ensures Part(HostBlock(r, m), [r.hostname], [PairOf(r)])
  {
    HostInsideServes(r, m);
    HostNoteIsTame(r);
    RoutePart(SanitizeLabel(r.title) + " \U{2014} " + KindName(r.kind), r, HostInside(r, m));
  }

  lemma PreviewInsideServes(r: Route, m: Mode)
    requires GoodMode(m)
    ensures Leads(PreviewInside(r, m), 1, 1) && Indented(PreviewInside(r, m))
    ensures Served(PreviewInside(r, m), r.hostname) == [PairOf(r)]
  {
    DedicatedTlsLeads(4, 1);
    FrameHeadersLead(m, 4, 1);
    QuietConcat(DedicatedTls(4), FrameHeaders(m, 4), 1);
    QuietThenProxy(DedicatedTls(4) + FrameHeaders(m, 4), r.port, true, 4, 1, r.hostname);
  }

  lemma PreviewEndIsTame()
    ensures Tame(" \U{2014} preview (isolated SSL)")
  {
  }

  lemma PreviewNoteIsTame(r: Route)
    ensures Tame(SanitizeLabel(r.title) + " \U{2014} preview (isolated SSL)")
  {
    PreviewEndIsTame();
    NoteIsTame(r.title, " \U{2014} preview (isolated SSL)");
  }

  lemma PreviewPart(r: Route, m: Mode)
    requires IsHostname(r.hostname) && GoodMode(m)
    ensures Part(PreviewHostBlock(r, m), [r.hostname], [PairOf(r)])
  {
    PreviewInsideServes(r, m);
    PreviewNoteIsTame(r);
    RoutePart(SanitizeLabel(r.title) + " \U{2014} preview (isolated SSL)", r, PreviewInside(r, m));
  }

  // ----- wildcard zones

  lemma {:induction false} MatcherCharsAreTame(s: string)
    ensures Tame(MatcherChars(s)) && NoSpaces(MatcherChars(s))
  {
    if s != "" {
      MatcherCharsAreTame(s[1..]);
    }
  }

  lemma MatcherNameIsTame(hostname: string)
    ensures Tame(MatcherName(hostname)) && NoSpaces(MatcherName(hostname)) && MatcherName(hostname) != ""
  {
    MatcherCharsAreTame(Lower(hostname));
    assert Tame("host") && NoSpaces("host");
  }

  lemma HandleNoteLeads(r: Route)
    ensures var note := Line(8, Note(SanitizeLabel(r.title) + " (" + KindName(r.kind) + ")"));
      Leads([note], 2, 2) && Quiet([note])
  {
    LabelIsTame(r.title);
    assert Tame(KindName(r.kind));
    LineLeads(Line(8, Note(SanitizeLabel(r.title) + " (" + KindName(r.kind) + ")")), 2);
  }

  lemma HandleInsideServes(r: Route, m: Mode, current: string)
    requires GoodMode(m)
    ensures Leads(HandleInside(r, m), 2, 2) && Indented(HandleInside(r, m))
    ensures Served(HandleInside(r, m), current) == [(current, Digits(r.port))]
    ensures LastHost(HandleInside(r, m), current) == current
  {
    var note := Line(8, Note(SanitizeLabel(r.title) + " (" + KindName(r.kind) + ")"));
    HandleNoteLeads(r);
    FrameHeadersLead(m, 8, 2);
    QuietConcat([note], if r.kind.Preview? then FrameHeaders(m, 8) else [], 2);
    QuietThenProxy([note] + (if r.kind.Preview? then FrameHeaders(m, 8) else []), r.port, r.kind.Preview?, 8, 2,
                   current);
  }

  /** Lines in a block serve what they serve. */
  lemma BlockServes(head: string, inside: seq<Line>, indent: nat, current: string)
    requires indent > 0 && Indented(inside)
    ensures Served(InBlock(head, inside, indent), current) == Served(inside, current)
    ensures LastHost(InBlock(head, inside, indent), current) == LastHost(inside, current)
  {
    var open, close := [Line(indent, Block(head))], [Line(indent, Close)];
    QuietServes(open, current);
    QuietServes(close, LastHost(inside, current));
    ServedConcat(open, inside, current);
    ServedConcat(open + inside, close, current);
  }

  lemma HandleHeadIsGood(name: string)
    requires Tame(name) && NoSpaces(name) && name != ""
    ensures GoodText("handle @" + name) && Trimmed("handle @" + name)
  {
    assert Tame("handle @");
    GoodConcat("handle @", name);
  }

  /** One handler: whatever host was current before, its proxy serves the route's own host. */
  lemma HandleServes(r: Route, m: Mode, current: string)
    requires IsHostname(r.hostname) && GoodMode(m)
    ensures Leads(RouteHandle(r, m), 1, 1) && Indented(RouteHandle(r, m))
    ensures Served(RouteHandle(r, m), current) == [PairOf(r)]
  {
    var name := MatcherName(r.hostname);
    var matcher := Line(4, Matcher(name, r.hostname));
    MatcherNameIsTame(r.hostname);
    HostHead(r.hostname);
    HandleHeadIsGood(name);
    HandleInsideServes(r, m, r.hostname);
    BlockLeads("handle @" + name, HandleInside(r, m), 4, 1);
    BlockServes("handle @" + name, HandleInside(r, m), 4, r.hostname);
    LineLeads(matcher, 1);
    LeadsConcat([matcher], InBlock("handle @" + name, HandleInside(r, m), 4), 1, 1, 1);
    OneLine(matcher, current);
    ServedConcat([matcher], InBlock("handle @" + name, HandleInside(r, m), 4), current);
  }

  lemma {:induction false} HandlesServe(routes: seq<Route>, m: Mode, current: string)
    requires GoodRoutes(routes) && GoodMode(m)
    ensures Leads(Handles(routes, m), 1, 1) && Indented(Handles(routes, m))
    ensures Served(Handles(routes, m), current) == Pairs(routes)
  {
    if routes != [] {
      var front, last := routes[..|routes| - 1], routes[|routes| - 1];
      HandlesServe(front, m, current);
      HandleServes(last, m, LastHost(Handles(front, m), current));
      LeadsConcat(Handles(front, m), RouteHandle(last, m), 1, 1, 1);
      ServedConcat(Handles(front, m), RouteHandle(last, m), current);
    }
  }

  /** A zone that is made of host characters and ends like a host. */
  ghost predicate GoodZone(zone: string) {
    Tame(zone) && zone != "" && !IsSpace(zone[|zone| - 1])
  }

  lemma ZoneHead(zone: string)
    requires GoodZone(zone)
    ensures GoodText("*." + zone) && Trimmed("*." + zone) && NotProxy("*." + zone + " {")
  {
    assert Tame("*.");
    GoodConcat("*.", zone);
    FirstDiffers("*." + zone, " {");
  }

  lemma ZoneInsideServes(routes: seq<Route>, m: Mode, current: string)
    requires GoodRoutes(routes) && GoodMode(m)
    ensures Leads(ZoneTls() + Handles(routes, m), 1, 1) && Indented(ZoneTls() + Handles(routes, m))
    ensures Served(ZoneTls() + Handles(routes, m), current) == Pairs(routes)
  {
    ZoneTlsLeads(1);
    QuietServes(ZoneTls(), current);
    HandlesServe(routes, m, current);
    LeadsConcat(ZoneTls(), Handles(routes, m), 1, 1, 1);
    ServedConcat(ZoneTls(), Handles(routes, m), current);
  }

  lemma ZoneNoteIsTame(zone: string)
    requires Tame(zone)
    ensures Tame("Wildcard zone *." + zone + " \U{2014} auto SSL")
  {
    assert Tame("Wildcard zone *.") && Tame(" \U{2014} auto SSL");
  }

  lemma WildcardPart(zone: string, routes: seq<Route>, m: Mode)
    requires GoodZone(zone) && GoodRoutes(routes) && GoodMode(m)
    ensures Part(WildcardZone(zone, routes, m), ["*." + zone], Pairs(routes))
  {
    ZoneHead(zone);
    ZoneInsideServes(routes, m, "*." + zone);
    ZoneNoteIsTame(zone);
    SitePart("Wildcard zone *." + zone + " \U{2014} auto SSL", "*." + zone, ZoneTls() + Handles(routes, m),
             Pairs(routes));
  }

  // ----- lists of blocks

  lemma {:induction false} CustomsPart(routes: seq<Route>)
    requires GoodRoutes(routes)
    ensures Part(CustomBlocks(routes), Hosts(routes), Pairs(routes))
  {
    if routes != [] {
      var front, last := routes[..|routes| - 1], routes[|routes| - 1];
      CustomsPart(front);
      CustomPart(last);
      PartConcat(CustomBlocks(front), CustomBlock(last), Hosts(front), [last.hostname], Pairs(front), [PairOf(last)]);
    }
  }

  lemma {:induction false} ApexesPart(routes: seq<Route>)
    requires GoodRoutes(routes)
    ensures Part(ApexHosts(routes), Hosts(routes), Pairs(routes))
  {
    if routes != [] {
      var front, last := routes[..|routes| - 1], routes[|routes| - 1];
      ApexesPart(front);
      ApexPart(last);
      PartConcat(ApexHosts(front), ApexBlock(last), Hosts(front), [last.hostname], Pairs(front), [PairOf(last)]);
    }
  }

  lemma {:induction false} HostsPart(routes: seq<Route>, m: Mode)
    requires GoodRoutes(routes) && GoodMode(m)
    ensures Part(HostBlocksOf(routes, m), Hosts(routes), Pairs(routes))
  {
    if routes != [] {
      var front, last := routes[..|routes| - 1], routes[|routes| - 1];
      HostsPart(front, m);
      HostPart(last, m);
      PartConcat(HostBlocksOf(front, m), HostBlock(last, m), Hosts(front), [last.hostname], Pairs(front),
                 [PairOf(last)]);
    }
  }

  lemma {:induction false} IsolatedPart(routes: seq<Route>, m: Mode)
    requires GoodRoutes(routes) && GoodMode(m)
    ensures Part(IsolatedPreviews(routes, m), Hosts(routes), Pairs(routes))
  {
    if routes != [] {
      var front, last := routes[..|routes| - 1], routes[|routes| - 1];
      IsolatedPart(front, m);
      PreviewPart(last, m);
      PartConcat(IsolatedPreviews(front, m), PreviewHostBlock(last, m), Hosts(front), [last.hostname], Pairs(front),
                 [PairOf(last)]);
    }
  }

  // ----- zones

  /** The last two labels of a name, or the name itself when it has one label: the name is its zone,
      or ends with a dot and its zone. */
  lemma {:induction false} SplitZone(s: string)
    ensures var parts := SplitDots(s);
      && (|parts| == 1 ==> parts[0] == s)
      && (|parts| == 2 ==> parts[0] + "." + parts[1] == s)
      && (|parts| > 2 ==>
            var zone := parts[|parts| - 2] + "." + parts[|parts| - 1];
            |zone| < |s| && s[|s| - |zone|..] == zone && s[|s| - |zone| - 1] == '.')
  {
    if s != "" {
      SplitZone(s[1..]);
      var parts, rest := SplitDots(s), SplitDots(s[1..]);
      assert s == [s[0]] + s[1..];
      if |parts| > 2 {
        var zone := parts[|parts| - 2] + "." + parts[|parts| - 1];
        if |rest| > 2 {
          assert parts[|parts| - 2..] == rest[|rest| - 2..];
        }
      }
    }
  }

  /** A host name is its own zone, or ends with a dot and the zone; so the wildcard of the zone
      covers every host below it.  The zone itself can stand in a site address. */
  lemma ZoneOfHost(h: string)
    requires IsHostname(h)
    ensures var zone := HostZone(h);
      && GoodZone(zone)
      && (h == zone || (|zone| < |h| && h[|h| - |zone| - 1..] == "." + zone))
  {
    HostnameIsFixed(h);
    SplitZone(h);
    SuffixZone(h, HostZone(h));
  }

  lemma SuffixZone(h: string, zone: string)
    requires IsHostname(h) && zone != "" && |zone| <= |h| && zone == h[|h| - |zone|..]
    requires |zone| < |h| ==> h[|h| - |zone| - 1] == '.'
    ensures GoodZone(zone)
    ensures h == zone || (|zone| < |h| && h[|h| - |zone| - 1..] == "." + zone)
  {
    assert forall i :: 0 <= i < |zone| ==> zone[i] == h[|h| - |zone| + i];
    if |zone| < |h| {
      assert h[|h| - |zone| - 1..] == [h[|h| - |zone| - 1]] + zone;
    }
  }
}
