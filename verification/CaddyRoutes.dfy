/** Caddyfile generation (syte/caddy_routes.py): from project records to the lines of the file. */
module CaddyRoutes {
  import opened Domains
  import opened CaddyLines

  /** What the generator reads of a project record; a missing domain is "", a missing port is 0.
      `name` is the project's name, or its id when it has none. */
  datatype Project = Project(name: string, domain: string, port: nat, previewDomain: string, previewPort: nat,
                             customDomain: string, customEnabled: bool)

  datatype Kind = Production | Preview | Custom

  datatype Route = Route(hostname: string, port: nat, title: string, kind: Kind)

  /** How previews and production hosts get their certificates, and the preview headers. */
  datatype Mode = Mode(wildcardTls: bool, isolatePreviews: bool, frameCsp: string, corsOrigin: string)

  // ----- collecting routes

  function RouteFor(domain: string, port: nat, name: string, kind: Kind): seq<Route> {
    var host := NormalizeDomain(domain);
    if host != "" && port != 0 && IsSafeCaddyHostname(host) then [Route(host, port, SanitizeLabel(name), kind)] else []
  }

  function ProductionRoutes(projects: seq<Project>): seq<Route> {
    if projects == [] then []
    else
      var p := projects[|projects| - 1];
      ProductionRoutes(projects[..|projects| - 1]) + RouteFor(p.domain, p.port, p.name, Production)
  }

  function PreviewRoutes(projects: seq<Project>): seq<Route> {
    if projects == [] then []
    else
      var p := projects[|projects| - 1];
      PreviewRoutes(projects[..|projects| - 1]) + RouteFor(p.previewDomain, p.previewPort, p.name, Preview)
  }

  function CustomRoutes(projects: seq<Project>): seq<Route> {
    if projects == [] then []
    else
      var p := projects[|projects| - 1];
      CustomRoutes(projects[..|projects| - 1])
      + if p.customEnabled then RouteFor(p.customDomain, p.port, p.name, Custom) else []
  }

  method CollectProjectRoutes(projects: seq<Project>) returns (production: seq<Route>, preview: seq<Route>)
    ensures production == ProductionRoutes(projects) && preview == PreviewRoutes(projects)
  {
    production, preview := [], [];
    for i := 0 to |projects|
      invariant production == ProductionRoutes(projects[..i]) && preview == PreviewRoutes(projects[..i])
    {
      assert projects[..i + 1][..i] == projects[..i];
      var p := projects[i];
      production := production + RouteFor(p.domain, p.port, p.name, Production);
      preview := preview + RouteFor(p.previewDomain, p.previewPort, p.name, Preview);
    }
    assert projects[..|projects|] == projects;
  }

  method CollectCustomTlsRoutes(projects: seq<Project>) returns (custom: seq<Route>)
    ensures custom == CustomRoutes(projects)
  {
    custom := [];
    for i := 0 to |projects|
      invariant custom == CustomRoutes(projects[..i])
    {
      assert projects[..i + 1][..i] == projects[..i];
      if projects[i].customEnabled {
        custom := custom + RouteFor(projects[i].customDomain, projects[i].port, projects[i].name, Custom);
      }
    }
    assert projects[..|projects|] == projects;
  }

  // ----- zones

  /** `s.split(".")`. */
  function SplitDots(s: string): (parts: seq<string>)
    ensures parts != []
  {
    if s == "" then [""]
    else
      var rest := SplitDots(s[1..]);
      if s[0] == '.' then [""] + rest else [[s[0]] + rest[0]] + rest[1..]
  }

  function HostZone(hostname: string): string {
    var host := NormalizeDomain(hostname);
    var parts := SplitDots(host);
    if |parts| >= 2 then parts[|parts| - 2] + "." + parts[|parts| - 1] else host
  }

  /** String comparison by code points, as `sorted` uses it. */
  predicate Less(a: string, b: string) {
    b != "" && (a == "" || a[0] < b[0] || (a[0] == b[0] && Less(a[1..], b[1..])))
  }

  /** Put a zone into a sorted list of zones, once. */
  function AddZone(zone: string, zones: seq<string>): seq<string> {
    if zones == [] || Less(zone, zones[0]) then [zone] + zones
    else if zone == zones[0] then zones
    else [zones[0]] + AddZone(zone, zones[1..])
  }

  function ZoneNames(routes: seq<Route>): seq<string> {
    if routes == [] then [] else ZoneNames(routes[..|routes| - 1]) + [HostZone(routes[|routes| - 1].hostname)]
  }

  function SortZones(names: seq<string>): seq<string> {
    if names == [] then [] else AddZone(names[|names| - 1], SortZones(names[..|names| - 1]))
  }

  /** The zones of the routes, sorted, each once. */
  function Zones(routes: seq<Route>): seq<string> {
    SortZones(ZoneNames(routes))
  }

  function OfZone(routes: seq<Route>, zone: string): seq<Route> {
    if routes == [] then []
    else
      OfZone(routes[..|routes| - 1], zone)
      + if HostZone(routes[|routes| - 1].hostname) == zone then [routes[|routes| - 1]] else []
  }

  /** A zone without an entry has no routes. */
  function Grouped(grouped: map<string, seq<Route>>, zone: string): seq<Route> {
    if zone in grouped then grouped[zone] else []
  }

  method RoutesByZone(routes: seq<Route>) returns (grouped: map<string, seq<Route>>)
    ensures forall z :: Grouped(grouped, z) == OfZone(routes, z)
  {
    grouped := map[];
    for i := 0 to |routes|
      invariant forall z :: Grouped(grouped, z) == OfZone(routes[..i], z)
    {
      assert routes[..i + 1][..i] == routes[..i];
      var zone := HostZone(routes[i].hostname);
      grouped := grouped[zone := Grouped(grouped, zone) + [routes[i]]];
    }
    assert routes[..|routes|] == routes;
  }

  // ----- rendering

  const STRIP_HEADERS := [
    "X-Frame-Options",
    "Cross-Origin-Opener-Policy",
    "Cross-Origin-Embedder-Policy",
    "Cross-Origin-Resource-Policy",
    "Strict-Transport-Security",
    "Permissions-Policy",
    "Content-Security-Policy"
  ]

  const DEFAULT_ORIGIN := "https://sycord.com"

  /** Leaf lines with a prefix, one for each header name. */
  function HeaderLeaves(prefix: string, names: seq<string>, indent: nat): seq<Line> {
    if names == [] then [] else [Line(indent, Leaf(prefix + names[0]))] + HeaderLeaves(prefix, names[1..], indent)
  }

  /** The origin without quotes and line ends; an empty one is replaced by the default. */
  function CleanOrigin(origin: string): string {
    if origin == "" then ""
    else
      (if origin[0] == '"' || origin[0] == '\n' || origin[0] == '\r' then "" else [origin[0]])
      + CleanOrigin(origin[1..])
  }

  function OriginOf(origin: string): string {
    if CleanOrigin(origin) == "" then DEFAULT_ORIGIN else CleanOrigin(origin)
  }

  /** A directive with a block. */
  function InBlock(head: string, inside: seq<Line>, indent: nat): seq<Line> {
    [Line(indent, Block(head))] + inside + [Line(indent, Close)]
  }

  /** The three headers that are set. */
  function SetHeaders(m: Mode, indent: nat): seq<Line> {
    [Line(indent, Leaf("Cross-Origin-Resource-Policy" + " cross-origin"))]
    + [Line(indent, Leaf("Access-Control-Allow-Origin " + OriginOf(m.corsOrigin)))]
    + [Line(indent, Leaf("Content-Security-Policy \"" + m.frameCsp + "\""))]
  }

  /** preview_iframe_header_lines: every stripped header but the last, which is set instead. */
  function FrameHeaders(m: Mode, indent: nat): seq<Line> {
    InBlock("header", HeaderLeaves("-", STRIP_HEADERS[..6], indent + 4) + SetHeaders(m, indent + 4), indent)
  }

  function ReverseProxy(port: nat, stripHeaders: bool, indent: nat): seq<Line> {
    [Line(indent, Proxy(port, true))]
    + (if stripHeaders then HeaderLeaves("header_down -", STRIP_HEADERS, indent + 4) else [])
    + [Line(indent, Close)]
  }

  function DedicatedTls(indent: nat): seq<Line> {
    InBlock("tls", [Line(indent + 4, Secret("dns cloudflare"))]
                   + [Line(indent + 4, Leaf("resolvers 1.1.1.1 8.8.8.8"))]
                   + [Line(indent + 4, Leaf("propagation_timeout" + " 5m"))], indent)
  }

  function KindName(kind: Kind): string {
    match kind case Production => "production" case Preview => "preview" case Custom => "custom"
  }

  /** A site: a comment, the address, what is inside, and a blank line. */
  function Site(note: string, address: string, inside: seq<Line>): seq<Line> {
    [Line(0, Note(note)), Line(0, Block(address))] + inside + [Line(0, Close), Line(0, Blank)]
  }

  function CustomBlock(r: Route): seq<Line> {
    Site(SanitizeLabel(r.title) + " \U{2014} custom TLS", r.hostname, [Line(4, Proxy(r.port, false))])
  }

  function HostInside(r: Route, m: Mode): seq<Line> {
    (if r.kind.Preview? then FrameHeaders(m, 4) else []) + ReverseProxy(r.port, r.kind.Preview?, 4)
  }

  function HostBlock(r: Route, m: Mode): seq<Line> {
    Site(SanitizeLabel(r.title) + " \U{2014} " + KindName(r.kind), r.hostname, HostInside(r, m))
  }

  function PreviewInside(r: Route, m: Mode): seq<Line> {
    DedicatedTls(4) + FrameHeaders(m, 4) + ReverseProxy(r.port, true, 4)
  }

  function PreviewHostBlock(r: Route, m: Mode): seq<Line> {
    Site(SanitizeLabel(r.title) + " \U{2014} preview (isolated SSL)", r.hostname, PreviewInside(r, m))
  }

  function MatcherChars(s: string): string {
    if s == "" then ""
    else [if 'a' <= s[0] <= 'z' || '0' <= s[0] <= '9' then s[0] else '_'] + MatcherChars(s[1..])
  }

  function MatcherName(hostname: string): string {
    var name := MatcherChars(Lower(hostname));
    var cut := if |name| <= 56 then name else name[..56];
    if cut == "" then "host" else cut
  }

  function HandleInside(r: Route, m: Mode): seq<Line> {
    [Line(8, Note(SanitizeLabel(r.title) + " (" + KindName(r.kind) + ")"))]
    + (if r.kind.Preview? then FrameHeaders(m, 8) else [])
    + ReverseProxy(r.port, r.kind.Preview?, 8)
  }

  function RouteHandle(r: Route, m: Mode): seq<Line> {
    [Line(4, Matcher(MatcherName(r.hostname), r.hostname))]
    + InBlock("handle @" + MatcherName(r.hostname), HandleInside(r, m), 4)
  }

  function Handles(routes: seq<Route>, m: Mode): seq<Line> {
    if routes == [] then [] else Handles(routes[..|routes| - 1], m) + RouteHandle(routes[|routes| - 1], m)
  }

  function ZoneTls(): seq<Line> {
    InBlock("tls", [Line(8, Secret("dns cloudflare"))], 4)
  }

  function WildcardZone(zone: string, routes: seq<Route>, m: Mode): seq<Line> {
    Site("Wildcard zone *." + zone + " \U{2014} auto SSL", "*." + zone, ZoneTls() + Handles(routes, m))
  }

  function ApexBlock(r: Route): seq<Line> {
    if IsSafeCaddyHostname(r.hostname)
    then Site(SanitizeLabel(r.title) + " \U{2014} apex", r.hostname, [Line(4, Proxy(r.port, false))])
    else []
  }

  function ApexHosts(routes: seq<Route>): seq<Line> {
    if routes == [] then [] else ApexHosts(routes[..|routes| - 1]) + ApexBlock(routes[|routes| - 1])
  }

  function CustomBlocks(routes: seq<Route>): seq<Line> {
    if routes == [] then [] else CustomBlocks(routes[..|routes| - 1]) + CustomBlock(routes[|routes| - 1])
  }

  function HostBlocksOf(routes: seq<Route>, m: Mode): seq<Line> {
    if routes == [] then [] else HostBlocksOf(routes[..|routes| - 1], m) + HostBlock(routes[|routes| - 1], m)
  }

  function IsolatedPreviews(routes: seq<Route>, m: Mode): seq<Line> {
    if routes == [] then [] else IsolatedPreviews(routes[..|routes| - 1], m) + PreviewHostBlock(routes[|routes| - 1], m)
  }

  function Apex(routes: seq<Route>, zone: string): seq<Route> {
    if routes == [] then []
    else
      var last := routes[|routes| - 1];
      Apex(routes[..|routes| - 1], zone) + if last.hostname == zone then [last] else []
  }

  function Below(routes: seq<Route>, zone: string): seq<Route> {
    if routes == [] then []
    else
      var last := routes[|routes| - 1];
      Below(routes[..|routes| - 1], zone) + if last.hostname != zone then [last] else []
  }

  /** One production zone: its apex hosts on their own, the rest behind the wildcard. */
  function ProductionZone(mine: seq<Route>, zone: string, m: Mode): seq<Line> {
    ApexHosts(Apex(mine, zone)) + if Below(mine, zone) == [] then [] else WildcardZone(zone, Below(mine, zone), m)
  }

  function ProductionZones(routes: seq<Route>, zones: seq<string>, m: Mode): seq<Line> {
    if zones == [] then []
    else
      var zone := zones[|zones| - 1];
      ProductionZones(routes, zones[..|zones| - 1], m) + ProductionZone(OfZone(routes, zone), zone, m)
  }

  function PreviewZones(routes: seq<Route>, zones: seq<string>, m: Mode): seq<Line> {
    if zones == [] then []
    else
      var zone := zones[|zones| - 1];
      PreviewZones(routes, zones[..|zones| - 1], m) + WildcardZone(zone, OfZone(routes, zone), m)
  }

  function Rendered(custom: seq<Route>, production: seq<Route>, preview: seq<Route>, m: Mode): seq<Line> {
    CustomBlocks(custom)
    + if !m.wildcardTls then HostBlocksOf(production + preview, m)
      else
        (if m.isolatePreviews then IsolatedPreviews(preview, m) else [])
        + ProductionZones(production, Zones(production), m)
        + (if m.isolatePreviews then [] else PreviewZones(preview, Zones(preview), m))
  }

  /** The lines for a list of projects. */
  function RenderedAll(projects: seq<Project>, m: Mode): seq<Line> {
    Rendered(CustomRoutes(projects), ProductionRoutes(projects), PreviewRoutes(projects), m)
  }

  method RenderWildcardZone(zone: string, routes: seq<Route>, m: Mode) returns (lines: seq<Line>)
    ensures lines == WildcardZone(zone, routes, m)
  {
    var handles := [];
    for i := 0 to |routes|
      invariant handles == Handles(routes[..i], m)
    {
      assert routes[..i + 1][..i] == routes[..i];
      handles := handles + RouteHandle(routes[i], m);
    }
    assert routes[..|routes|] == routes;
    lines := Site("Wildcard zone *." + zone + " \U{2014} auto SSL", "*." + zone, ZoneTls() + handles);
  }

  method RenderApexHosts(routes: seq<Route>) returns (lines: seq<Line>)
    ensures lines == ApexHosts(routes)
  {
    lines := [];
    for i := 0 to |routes|
      invariant lines == ApexHosts(routes[..i])
    {
      assert routes[..i + 1][..i] == routes[..i];
      if !IsSafeCaddyHostname(routes[i].hostname) {
        continue;
      }
      lines := lines + ApexBlock(routes[i]);
    }
    assert routes[..|routes|] == routes;
  }

  method RenderCustom(custom: seq<Route>) returns (lines: seq<Line>)
    ensures lines == CustomBlocks(custom)
  {
    lines := [];
    for i := 0 to |custom|
      invariant lines == CustomBlocks(custom[..i])
    {
      assert custom[..i + 1][..i] == custom[..i];
      lines := lines + CustomBlock(custom[i]);
    }
    assert custom[..|custom|] == custom;
  }

  method RenderHosts(routes: seq<Route>, m: Mode) returns (lines: seq<Line>)
    ensures lines == HostBlocksOf(routes, m)
  {
    lines := [];
    for i := 0 to |routes|
      invariant lines == HostBlocksOf(routes[..i], m)
    {
      assert routes[..i + 1][..i] == routes[..i];
      lines := lines + HostBlock(routes[i], m);
    }
    assert routes[..|routes|] == routes;
  }

  method RenderIsolatedPreviews(routes: seq<Route>, m: Mode) returns (lines: seq<Line>)
    ensures lines == IsolatedPreviews(routes, m)
  {
    lines := [];
    for i := 0 to |routes|
      invariant lines == IsolatedPreviews(routes[..i], m)
    {
      assert routes[..i + 1][..i] == routes[..i];
      lines := lines + PreviewHostBlock(routes[i], m);
    }
    assert routes[..|routes|] == routes;
  }

  method RenderProductionZone(mine: seq<Route>, zone: string, m: Mode) returns (lines: seq<Line>)
    ensures lines == ProductionZone(mine, zone, m)
  {
    lines := RenderApexHosts(Apex(mine, zone));
    var below := Below(mine, zone);
    if below != [] {
      var wildcard := RenderWildcardZone(zone, below, m);
      lines := lines + wildcard;
    }
  }

  method RenderProductionZones(production: seq<Route>, zones: seq<string>, m: Mode) returns (lines: seq<Line>)
    ensures lines == ProductionZones(production, zones, m)
  {
    var byZone := RoutesByZone(production);
    lines := [];
    for i := 0 to |zones|
      invariant lines == ProductionZones(production, zones[..i], m)
    {
      var zone := zones[i];
      assert zones[..i + 1][..i] == zones[..i] && zones[..i + 1][i] == zone;
      var blocks := RenderProductionZone(Grouped(byZone, zone), zone, m);
      lines := lines + blocks;
    }
    assert zones[..|zones|] == zones;
  }

  method RenderPreviewZones(preview: seq<Route>, zones: seq<string>, m: Mode) returns (lines: seq<Line>)
    ensures lines == PreviewZones(preview, zones, m)
  {
    var byZone := RoutesByZone(preview);
    lines := [];
    for i := 0 to |zones|
      invariant lines == PreviewZones(preview, zones[..i], m)
    {
      var zone := zones[i];
      assert zones[..i + 1][..i] == zones[..i] && zones[..i + 1][i] == zone;
      var wildcard := RenderWildcardZone(zone, Grouped(byZone, zone), m);
      lines := lines + wildcard;
    }
    assert zones[..|zones|] == zones;
  }

  /** render_all_service_routes. */
  method RenderAllServiceRoutes(projects: seq<Project>, m: Mode) returns (lines: seq<Line>)
    ensures lines == RenderedAll(projects, m)
  {
    var custom := CollectCustomTlsRoutes(projects);
    var production, preview := CollectProjectRoutes(projects);
    if production + preview == [] && custom == [] {
      return [];
    }
    lines := RenderCustom(custom);
    if !m.wildcardTls {
      var hosts := RenderHosts(production + preview, m);
      return lines + hosts;
    }
    var isolated, zoned := [], [];
    if m.isolatePreviews && preview != [] {
      isolated := RenderIsolatedPreviews(preview, m);
    }
    var zones := RenderProductionZones(production, Zones(production), m);
    if !m.isolatePreviews {
      zoned := RenderPreviewZones(preview, Zones(preview), m);
    }
    lines := lines + (isolated + zones + zoned);
  }
}
