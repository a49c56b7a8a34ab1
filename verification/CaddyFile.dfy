/** The whole generated file: its sites read back as meant, in order, and every collected route is
    served exactly once, by its own host and its own port. */
module CaddyFile {
  import opened Domains
  import opened CaddyLines
  import opened CaddyReading
  import opened CaddyRoutes
  import opened CaddyNesting
  import opened CaddyTheorems

  // ----- zones are sorted, distinct and cover every route

  lemma {:induction false} LessTransitive(a: string, b: string, c: string)
    requires Less(a, b) && Less(b, c)
    ensures Less(a, c)
  {
    if a != "" && a[0] == b[0] && b[0] == c[0] {
      LessTransitive(a[1..], b[1..], c[1..]);
    }
  }

  lemma {:induction false} LessTotal(a: string, b: string)
    ensures !Less(a, a)
    ensures a == b || Less(a, b) || Less(b, a)
  {
    if a != "" {
      LessTotal(a[1..], a[1..]);
      if b != "" && a[0] == b[0] {
        LessTotal(a[1..], b[1..]);
        assert a == [a[0]] + a[1..] && b == [b[0]] + b[1..];
      }
    }
  }

  ghost predicate StrictlySorted(zones: seq<string>) {
    forall i, j :: 0 <= i < j < |zones| ==> Less(zones[i], zones[j])
  }

  lemma {:induction false} AddZoneSorted(zone: string, zones: seq<string>)
    requires StrictlySorted(zones)
    ensures StrictlySorted(AddZone(zone, zones))
    ensures forall z :: z in AddZone(zone, zones) <==> z == zone || z in zones
  {
    if zones == [] {
    } else if Less(zone, zones[0]) {
      forall j | 0 < j < |zones|
        ensures Less(zone, zones[j])
      {
        LessTransitive(zone, zones[0], zones[j]);
      }
    } else if zone != zones[0] {
      LessTotal(zone, zones[0]);
      AddZoneSorted(zone, zones[1..]);
      assert zones == [zones[0]] + zones[1..];
      var rest := AddZone(zone, zones[1..]);
      forall j | 0 <= j < |rest|
        ensures Less(zones[0], rest[j])
      {
        assert rest[j] in rest;
      }
    }
  }

  lemma {:induction false} SortZonesSorted(names: seq<string>)
    ensures StrictlySorted(SortZones(names))
    ensures forall z :: z in SortZones(names) <==> z in names
  {
    if names != [] {
      var front, last := names[..|names| - 1], names[|names| - 1];
      SortZonesSorted(front);
      AddZoneSorted(last, SortZones(front));
      assert names == front + [last];
    }
  }

  lemma {:induction false} ZoneNamesGood(routes: seq<Route>)
    requires GoodRoutes(routes)
    ensures forall z :: z in ZoneNames(routes) ==> GoodZone(z)
  {
    if routes != [] {
      var front, last := routes[..|routes| - 1], routes[|routes| - 1];
      ZoneNamesGood(front);
      ZoneOfHost(last.hostname);
      InSnoc(ZoneNames(front), HostZone(last.hostname));
    }
  }

  lemma InSnoc(names: seq<string>, name: string)
    ensures forall z :: z in names + [name] <==> z in names || z == name
  {
  }

  /** The zones of a list of routes come sorted and without repetition, and are exactly theirs. */
  lemma ZonesSorted(routes: seq<Route>)
    ensures StrictlySorted(Zones(routes)) && NoRepeats(Zones(routes))
    ensures forall z :: z in Zones(routes) <==> z in ZoneNames(routes)
  {
    SortZonesSorted(ZoneNames(routes));
    SortedNoRepeats(Zones(routes));
  }

  ghost predicate NoRepeats(zones: seq<string>) {
    forall i, j :: 0 <= i < j < |zones| ==> zones[i] != zones[j]
  }

  lemma SortedNoRepeats(zones: seq<string>)
    requires StrictlySorted(zones)
    ensures NoRepeats(zones)
  {
    forall i, j | 0 <= i < j < |zones|
      ensures zones[i] != zones[j]
    {
      LessTotal(zones[i], zones[j]);
    }
  }

  // ----- parts by zone

  lemma {:induction false} OfZoneGood(routes: seq<Route>, zone: string)
    requires GoodRoutes(routes)
    ensures GoodRoutes(OfZone(routes, zone))
  {
    if routes != [] {
      OfZoneGood(routes[..|routes| - 1], zone);
    }
  }

  lemma {:induction false} OfZoneIsOfZone(routes: seq<Route>, zone: string)
    ensures forall r :: r in OfZone(routes, zone) ==> HostZone(r.hostname) == zone
  {
    if routes != [] {
      OfZoneIsOfZone(routes[..|routes| - 1], zone);
    }
  }

  lemma InItsZone(routes: seq<Route>, zone: string, r: Route)
    requires r in OfZone(routes, zone)
    ensures HostZone(r.hostname) == zone
  {
    OfZoneIsOfZone(routes, zone);
  }

  lemma GoodHost(routes: seq<Route>, r: Route)
    requires GoodRoutes(routes) && r in routes
    ensures IsHostname(r.hostname)
  {
  }

  lemma {:induction false} ApexBelowGood(routes: seq<Route>, zone: string)
    requires GoodRoutes(routes)
    ensures GoodRoutes(Apex(routes, zone)) && GoodRoutes(Below(routes, zone))
    ensures forall r :: r in Below(routes, zone) ==> r in routes && r.hostname != zone
  {
    if routes != [] {
      var front, last := routes[..|routes| - 1], routes[|routes| - 1];
      ApexBelowGood(front, zone);
      assert routes == front + [last];
    }
  }

  lemma PairsSnoc(routes: seq<Route>, r: Route)
    ensures Pairs(routes + [r]) == Pairs(routes) + [PairOf(r)]
    ensures multiset(Pairs(routes + [r])) == multiset(Pairs(routes)) + multiset{PairOf(r)}
  {
    assert (routes + [r])[..|routes|] == routes;
  }

  lemma ApexBelowSnoc(routes: seq<Route>, r: Route, zone: string)
    ensures Apex(routes + [r], zone) == if r.hostname == zone then Apex(routes, zone) + [r] else Apex(routes, zone)
    ensures Below(routes + [r], zone) == if r.hostname == zone then Below(routes, zone) else Below(routes, zone) + [r]
  {
    assert (routes + [r])[..|routes|] == routes;
  }

  /** The apex filter drops nothing. */
  lemma {:induction false} ApexBelowConserve(routes: seq<Route>, zone: string)
    ensures multiset(Pairs(Apex(routes, zone))) + multiset(Pairs(Below(routes, zone))) == multiset(Pairs(routes))
  {
    if routes != [] {
      var front, last := routes[..|routes| - 1], routes[|routes| - 1];
      assert routes == front + [last];
      ApexBelowConserve(front, zone);
      ApexBelowAdds(front, last, zone);
    }
  }

  lemma ApexBelowAdds(routes: seq<Route>, r: Route, zone: string)
    requires multiset(Pairs(Apex(routes, zone))) + multiset(Pairs(Below(routes, zone))) == multiset(Pairs(routes))
    ensures multiset(Pairs(Apex(routes + [r], zone))) + multiset(Pairs(Below(routes + [r], zone)))
        == multiset(Pairs(routes + [r]))
  {
    ApexBelowSnoc(routes, r, zone);
    PairsSnoc(routes, r);
    PairsSnoc(Apex(routes, zone), r);
    PairsSnoc(Below(routes, zone), r);
  }

  function ZoneSites(routes: seq<Route>, zones: seq<string>): seq<string> {
    if zones == [] then []
    else
      var zone := zones[|zones| - 1];
      var mine := OfZone(routes, zone);
      ZoneSites(routes, zones[..|zones| - 1])
      + (Hosts(Apex(mine, zone)) + if Below(mine, zone) == [] then [] else ["*." + zone])
  }

  function ZonePairs(routes: seq<Route>, zones: seq<string>): seq<(string, string)> {
    if zones == [] then []
    else
      var zone := zones[|zones| - 1];
      var mine := OfZone(routes, zone);
      ZonePairs(routes, zones[..|zones| - 1]) + (Pairs(Apex(mine, zone)) + Pairs(Below(mine, zone)))
  }

  function Stars(zones: seq<string>): seq<string> {
    if zones == [] then [] else Stars(zones[..|zones| - 1]) + ["*." + zones[|zones| - 1]]
  }

  function GroupedPairs(routes: seq<Route>, zones: seq<string>): seq<(string, string)> {
    if zones == [] then []
    else GroupedPairs(routes, zones[..|zones| - 1]) + Pairs(OfZone(routes, zones[|zones| - 1]))
  }

  ghost predicate GoodZones(zones: seq<string>) {
    forall i :: 0 <= i < |zones| ==> GoodZone(zones[i])
  }

  lemma ProductionZonePart(mine: seq<Route>, zone: string, m: Mode)
    requires GoodRoutes(mine) && GoodZone(zone) && GoodMode(m)
    ensures Part(ProductionZone(mine, zone, m),
                 Hosts(Apex(mine, zone)) + (if Below(mine, zone) == [] then [] else ["*." + zone]),
                 Pairs(Apex(mine, zone)) + Pairs(Below(mine, zone)))
  {
    var apex, below := Apex(mine, zone), Below(mine, zone);
    ApexBelowGood(mine, zone);
    ApexesPart(apex);
    if below == [] {
      EmptyPart();
      PartConcat(ApexHosts(apex), [], Hosts(apex), [], Pairs(apex), []);
    } else {
      WildcardPart(zone, below, m);
      PartConcat(ApexHosts(apex), WildcardZone(zone, below, m), Hosts(apex), ["*." + zone], Pairs(apex), Pairs(below));
    }
  }

  lemma {:induction false} ProductionZonesPart(routes: seq<Route>, zones: seq<string>, m: Mode)
    requires GoodRoutes(routes) && GoodZones(zones) && GoodMode(m)
    ensures Part(ProductionZones(routes, zones, m), ZoneSites(routes, zones), ZonePairs(routes, zones))
  {
    if zones != [] {
      var front, zone := zones[..|zones| - 1], zones[|zones| - 1];
      var mine := OfZone(routes, zone);
      ProductionZonesPart(routes, front, m);
      OfZoneGood(routes, zone);
      ProductionZonePart(mine, zone, m);
      PartConcat(ProductionZones(routes, front, m), ProductionZone(mine, zone, m),
                 ZoneSites(routes, front),
                 Hosts(Apex(mine, zone)) + (if Below(mine, zone) == [] then [] else ["*." + zone]),
                 ZonePairs(routes, front), Pairs(Apex(mine, zone)) + Pairs(Below(mine, zone)));
    }
  }

  lemma {:induction false} PreviewZonesPart(routes: seq<Route>, zones: seq<string>, m: Mode)
    requires GoodRoutes(routes) && GoodZones(zones) && GoodMode(m)
    ensures Part(PreviewZones(routes, zones, m), Stars(zones), GroupedPairs(routes, zones))
  {
    if zones != [] {
      var front, zone := zones[..|zones| - 1], zones[|zones| - 1];
      var mine := OfZone(routes, zone);
      PreviewZonesPart(routes, front, m);
      OfZoneGood(routes, zone);
      WildcardPart(zone, mine, m);
      PartConcat(PreviewZones(routes, front, m), WildcardZone(zone, mine, m),
                 Stars(front), ["*." + zone], GroupedPairs(routes, front), Pairs(mine));
    }
  }

  lemma ZonesGood(routes: seq<Route>)
    requires GoodRoutes(routes)
    ensures GoodZones(Zones(routes))
  {
    ZonesSorted(routes);
    ZoneNamesGood(routes);
    forall k | 0 <= k < |Zones(routes)|
      ensures GoodZone(Zones(routes)[k])
    {
      assert Zones(routes)[k] in ZoneNames(routes);
    }
  }

  // ----- grouping loses nothing

  lemma OfZoneSnoc(routes: seq<Route>, r: Route, zone: string)
    ensures OfZone(routes + [r], zone) == OfZone(routes, zone) + if HostZone(r.hostname) == zone then [r] else []
  {
    assert (routes + [r])[..|routes|] == routes;
  }

  lemma GroupAdds(routes: seq<Route>, r: Route, mine: string, zone: string)
    requires mine == HostZone(r.hostname)
    ensures multiset(Pairs(OfZone(routes + [r], zone)))
            == multiset(Pairs(OfZone(routes, zone))) + OneIf(r, mine == zone)
  {
    OfZoneSnoc(routes, r, zone);
    PairsSnoc(OfZone(routes, zone), r);
    assert OfZone(routes, zone) + [] == OfZone(routes, zone);
  }

  lemma GroupedSnoc(routes: seq<Route>, front: seq<string>, zone: string)
    ensures multiset(GroupedPairs(routes, front + [zone]))
            == multiset(GroupedPairs(routes, front)) + multiset(Pairs(OfZone(routes, zone)))
  {
    assert (front + [zone])[..|front|] == front;
  }

  lemma Rearrange<T>(a: multiset<T>, b: multiset<T>, x: multiset<T>, y: multiset<T>)
    ensures (a + x) + (b + y) == (a + b) + (x + y)
  {
  }

  lemma OneOrOther(r: Route, a: bool, b: bool)
    requires !(a && b)
    ensures OneIf(r, a) + OneIf(r, b) == OneIf(r, a || b)
  {
  }

  lemma {:induction false} GroupingAdds(routes: seq<Route>, r: Route, mine: string, zones: seq<string>)
    requires NoRepeats(zones) && mine == HostZone(r.hostname)
    ensures multiset(GroupedPairs(routes + [r], zones))
            == multiset(GroupedPairs(routes, zones)) + OneIf(r, mine in zones)
  {
    if zones != [] {
      var front, zone := zones[..|zones| - 1], zones[|zones| - 1];
      assert zones == front + [zone] && zone !in front;
      InSnoc(front, zone);
      GroupingAdds(routes, r, mine, front);
      GroupAdds(routes, r, mine, zone);
      GroupedSnoc(routes, front, zone);
      GroupedSnoc(routes + [r], front, zone);
      Rearrange(multiset(GroupedPairs(routes, front)), multiset(Pairs(OfZone(routes, zone))),
                OneIf(r, mine in front), OneIf(r, mine == zone));
      OneOrOther(r, mine in front, mine == zone);
    }
  }

  /** The route's pair, once or not at all. */
  ghost function OneIf(r: Route, present: bool): multiset<(string, string)> {
    if present then multiset{PairOf(r)} else multiset{}
  }

  /** Grouping by zone keeps every route of the zones, exactly once. */
  lemma {:induction false} GroupingConserves(routes: seq<Route>, zones: seq<string>)
    requires NoRepeats(zones) && forall z :: z in ZoneNames(routes) ==> z in zones
    ensures multiset(GroupedPairs(routes, zones)) == multiset(Pairs(routes))
  {
    if routes == [] {
      NothingGrouped(zones);
    } else {
      var front, last := routes[..|routes| - 1], routes[|routes| - 1];
      assert routes == front + [last];
      assert ZoneNames(routes) == ZoneNames(front) + [HostZone(last.hostname)];
      assert HostZone(last.hostname) in ZoneNames(routes);
      GroupingConserves(front, zones);
      GroupingAdds(front, last, HostZone(last.hostname), zones);
    }
  }

  lemma {:induction false} NothingGrouped(zones: seq<string>)
    ensures GroupedPairs([], zones) == []
  {
    if zones != [] {
      NothingGrouped(zones[..|zones| - 1]);
    }
  }

  lemma {:induction false} ApexSplitConserves(routes: seq<Route>, zones: seq<string>)
    ensures multiset(ZonePairs(routes, zones)) == multiset(GroupedPairs(routes, zones))
  {
    if zones != [] {
      ApexSplitConserves(routes, zones[..|zones| - 1]);
      ApexBelowConserve(OfZone(routes, zones[|zones| - 1]), zones[|zones| - 1]);
    }
  }

  // ----- the file

  /** The sites that are meant, in the order in which they are written. */
  function IntendedSites(custom: seq<Route>, production: seq<Route>, preview: seq<Route>, m: Mode): seq<string> {
    Hosts(custom)
    + if !m.wildcardTls then Hosts(production + preview)
      else
        (if m.isolatePreviews then Hosts(preview) else [])
        + ZoneSites(production, Zones(production))
        + (if m.isolatePreviews then [] else Stars(Zones(preview)))
  }

  function IntendedPairs(custom: seq<Route>, production: seq<Route>, preview: seq<Route>, m: Mode)
    : seq<(string, string)>
  {
    Pairs(custom)
    + if !m.wildcardTls then Pairs(production + preview)
      else
        (if m.isolatePreviews then Pairs(preview) else [])
        + ZonePairs(production, Zones(production))
        + (if m.isolatePreviews then [] else GroupedPairs(preview, Zones(preview)))
  }

  lemma FilePart(custom: seq<Route>, production: seq<Route>, preview: seq<Route>, m: Mode)
    requires GoodRoutes(custom) && GoodRoutes(production) && GoodRoutes(preview) && GoodMode(m)
    ensures Part(Rendered(custom, production, preview, m), IntendedSites(custom, production, preview, m),
                 IntendedPairs(custom, production, preview, m))
  {
    CustomsPart(custom);
    if !m.wildcardTls {
      HostsPart(production + preview, m);
      PartConcat(CustomBlocks(custom), HostBlocksOf(production + preview, m),
                 Hosts(custom), Hosts(production + preview),
                 Pairs(custom), Pairs(production + preview));
    } else {
      WildcardFilePart(production, preview, m);
      if m.isolatePreviews {
        IsolatedPart(preview, m);
      }
      PartConcat(CustomBlocks(custom),
                 (if m.isolatePreviews then IsolatedPreviews(preview, m) else [])
                 + ProductionZones(production, Zones(production), m)
                 + (if m.isolatePreviews then [] else PreviewZones(preview, Zones(preview), m)),
                 Hosts(custom),
                 (if m.isolatePreviews then Hosts(preview) else [])
                 + ZoneSites(production, Zones(production))
                 + (if m.isolatePreviews then [] else Stars(Zones(preview))),
                 Pairs(custom),
                 (if m.isolatePreviews then Pairs(preview) else [])
                 + ZonePairs(production, Zones(production))
                 + (if m.isolatePreviews then [] else GroupedPairs(preview, Zones(preview))));
    }
  }

  lemma WildcardFilePart(production: seq<Route>, preview: seq<Route>, m: Mode)
    requires GoodRoutes(production) && GoodRoutes(preview) && GoodMode(m)
    ensures Part((if m.isolatePreviews then IsolatedPreviews(preview, m) else [])
                 + ProductionZones(production, Zones(production), m)
                 + (if m.isolatePreviews then [] else PreviewZones(preview, Zones(preview), m)),
                 (if m.isolatePreviews then Hosts(preview) else [])
                 + ZoneSites(production, Zones(production))
                 + (if m.isolatePreviews then [] else Stars(Zones(preview))),
                 (if m.isolatePreviews then Pairs(preview) else [])
                 + ZonePairs(production, Zones(production))
                 + (if m.isolatePreviews then [] else GroupedPairs(preview, Zones(preview))))
  {
    ZonesGood(production);
    ZonesGood(preview);
    ProductionZonesPart(production, Zones(production), m);
    EmptyPart();
    if m.isolatePreviews {
      IsolatedPart(preview, m);
      ThreeParts(IsolatedPreviews(preview, m), ProductionZones(production, Zones(production), m), [],
                 Hosts(preview), ZoneSites(production, Zones(production)), [],
                 Pairs(preview), ZonePairs(production, Zones(production)), []);
    } else {
      PreviewZonesPart(preview, Zones(preview), m);
      ThreeParts([], ProductionZones(production, Zones(production), m), PreviewZones(preview, Zones(preview), m),
                 [], ZoneSites(production, Zones(production)), Stars(Zones(preview)),
                 [], ZonePairs(production, Zones(production)), GroupedPairs(preview, Zones(preview)));
    }
  }

  lemma ThreeParts(a: seq<Line>, b: seq<Line>, c: seq<Line>, sa: seq<string>, sb: seq<string>, sc: seq<string>,
                   pa: seq<(string, string)>, pb: seq<(string, string)>, pc: seq<(string, string)>)
    requires Part(a, sa, pa) && Part(b, sb, pb) && Part(c, sc, pc)
    ensures Part(a + b + c, sa + sb + sc, pa + pb + pc)
  {
    PartConcat(a, b, sa, sb, pa, pb);
    PartConcat(a + b, c, sa + sb, sc, pa + pb, pc);
  }

  lemma {:induction false} PairsConcat(a: seq<Route>, b: seq<Route>)
    ensures Pairs(a + b) == Pairs(a) + Pairs(b)
  {
    if b == [] {
      assert a + b == a;
    } else {
      assert (a + b)[..|a + b| - 1] == a + b[..|b| - 1];
      PairsConcat(a, b[..|b| - 1]);
    }
  }

  lemma PairsConserved(custom: seq<Route>, production: seq<Route>, preview: seq<Route>, m: Mode)
    ensures multiset(IntendedPairs(custom, production, preview, m))
            == multiset(Pairs(custom)) + multiset(Pairs(production)) + multiset(Pairs(preview))
  {
    PairsConcat(production, preview);
    ZonesSorted(production);
    ZonesSorted(preview);
    ApexSplitConserves(production, Zones(production));
    GroupingConserves(production, Zones(production));
    GroupingConserves(preview, Zones(preview));
  }

  // ----- from project records

  /** The normal forms of the stored domains have no white space around them; text stored without
      white space always meets this. */
  ghost predicate TrimmedDomains(projects: seq<Project>) {
    forall i :: 0 <= i < |projects| ==>
      && Trimmed(NormalizeDomain(projects[i].domain))
      && Trimmed(NormalizeDomain(projects[i].previewDomain))
      && Trimmed(NormalizeDomain(projects[i].customDomain))
  }

  lemma RouteForGood(domain: string, port: nat, name: string, kind: Kind)
    requires Trimmed(NormalizeDomain(domain))
    ensures GoodRoutes(RouteFor(domain, port, name, kind))
  {
    NormalizeIsBare(domain);
    if IsSafeCaddyHostname(NormalizeDomain(domain)) {
      SafeIsHostnameIff(NormalizeDomain(domain));
    }
  }

  lemma {:induction false} CollectedGood(projects: seq<Project>)
    requires TrimmedDomains(projects)
    ensures GoodRoutes(CustomRoutes(projects)) && GoodRoutes(ProductionRoutes(projects))
    ensures GoodRoutes(PreviewRoutes(projects))
  {
    if projects != [] {
      var p := projects[|projects| - 1];
      CollectedGood(projects[..|projects| - 1]);
      RouteForGood(p.domain, p.port, p.name, Production);
      RouteForGood(p.previewDomain, p.previewPort, p.name, Preview);
      RouteForGood(p.customDomain, p.port, p.name, Custom);
    }
  }

  /** For every list of projects and every mode: reading the generated text back by indentation
      alone gives the intended site addresses in order; the brace-depth reader gives the same; and
      the depth never goes negative and ends at 0. */
  lemma FileReadsBack(projects: seq<Project>, m: Mode)
    requires TrimmedDomains(projects) && GoodMode(m)
    ensures var raws := SplitLines(Join(ShowAll(RenderedAll(projects, m))));
      && HostBlocks(raws)
        == IntendedSites(CustomRoutes(projects), ProductionRoutes(projects), PreviewRoutes(projects), m)
      && Sites(raws) == HostBlocks(raws)
      && Depth(raws) == 0 && NeverNegative(raws)
  {
    CollectedGood(projects);
    FilePart(CustomRoutes(projects), ProductionRoutes(projects), PreviewRoutes(projects), m);
    TextReadBack(RenderedAll(projects, m));
  }

  /** The indentation-only reader finds trimmed addresses only, whatever the text. */
  lemma {:induction false} FoundIsTrimmed(raws: seq<string>, site: string)
    requires site in HostBlocks(raws)
    ensures Trimmed(site)
  {
    var front, last := raws[..|raws| - 1], raws[|raws| - 1];
    if site in HostBlocks(front) {
      FoundIsTrimmed(front, site);
    } else {
      var line := Strip(last);
      StripTrims(line[..|line| - 1]);
    }
  }

  /** So trimmed names are needed: for every list of projects and every mode, the text does not read
      back when a site that was meant has white space around its address. */
  lemma UntrimmedNotReadBack(projects: seq<Project>, m: Mode, site: string)
    requires !Trimmed(site)
    requires site in IntendedSites(CustomRoutes(projects), ProductionRoutes(projects), PreviewRoutes(projects), m)
    ensures HostBlocks(SplitLines(Join(ShowAll(RenderedAll(projects, m)))))
            != IntendedSites(CustomRoutes(projects), ProductionRoutes(projects), PreviewRoutes(projects), m)
  {
    var raws := SplitLines(Join(ShowAll(RenderedAll(projects, m))));
    if site in HostBlocks(raws) {
      FoundIsTrimmed(raws, site);
    }
  }

  /** Every collected custom, production and preview route yields exactly one reverse_proxy to its
      own port, under its own host, in every mode. */
  lemma NoRouteLost(projects: seq<Project>, m: Mode)
    requires TrimmedDomains(projects) && GoodMode(m)
    ensures multiset(Routed(ShowAll(RenderedAll(projects, m))))
            == multiset(Pairs(CustomRoutes(projects))) + multiset(Pairs(ProductionRoutes(projects)))
               + multiset(Pairs(PreviewRoutes(projects)))
  {
    CollectedGood(projects);
    var custom, production, preview := CustomRoutes(projects), ProductionRoutes(projects), PreviewRoutes(projects);
    FilePart(custom, production, preview, m);
    var ls := Rendered(custom, production, preview, m);
    LeadsGood(ls, 0, 0);
    RoutesReadBack(ls);
    assert Served(ls, "") == IntendedPairs(custom, production, preview, m);
    PairsConserved(custom, production, preview, m);
  }

  /** Every route behind a zone's wildcard has a host that ends with a dot and the zone. */
  lemma WildcardCoversItsHosts(production: seq<Route>, zone: string, r: Route)
    requires GoodRoutes(production) && r in Below(OfZone(production, zone), zone)
    ensures |zone| < |r.hostname| && r.hostname[|r.hostname| - |zone| - 1..] == "." + zone
  {
    var mine := OfZone(production, zone);
    OfZoneGood(production, zone);
    ApexBelowGood(mine, zone);
    InItsZone(production, zone, r);
    GoodHost(mine, r);
    ZoneOfHost(r.hostname);
  }
}
