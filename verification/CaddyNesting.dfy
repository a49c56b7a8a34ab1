/** Every part of a generated Caddyfile is well nested, names its sites and serves its routes. */
module CaddyNesting {
  import opened Domains
  import opened CaddyLines
  import opened CaddyReading
  import opened CaddyRoutes

  /** The content security policy and the origin are free of braces and line breaks. */
  ghost predicate GoodMode(m: Mode) {
    Tame(m.frameCsp) && Tame(OriginOf(m.corsOrigin))
  }

  // ----- lines inside a site

  /** Indented lines without a proxy or a matcher. */
  ghost predicate Quiet(ls: seq<Line>) {
    forall i :: 0 <= i < |ls| ==> ls[i].indent > 0 && !ls[i].text.Proxy? && !ls[i].text.Matcher?
  }

  ghost predicate Indented(ls: seq<Line>) {
    forall i :: 0 <= i < |ls| ==> ls[i].indent > 0
  }

  lemma {:induction false} QuietServes(ls: seq<Line>, current: string)
    requires Quiet(ls)
    ensures Served(ls, current) == [] && LastHost(ls, current) == current
  {
    if ls != [] {
      QuietServes(ls[1..], current);
    }
  }

  lemma {:induction false} IndentedHeads(ls: seq<Line>)
    requires Indented(ls)
    ensures Heads(ls) == []
  {
    if ls != [] {
      IndentedHeads(ls[1..]);
    }
  }

  /** One line that does not change the depth. */
  lemma LineLeads(l: Line, d: nat)
    requires Good(l) && l.indent > 0 && CaddyLineFacts.Delta(l.text) == 0 && d >= 1
    ensures Leads([l], d, d)
  {
    assert [l][1..] == [];
  }

  /** A block around lines. */
  lemma WrapLeads(open: Line, inside: seq<Line>, close: Line, d: nat)
    requires Good(open) && open.indent > 0 && CaddyLineFacts.Delta(open.text) == 1
    requires close.indent > 0 && close.text == Close && d >= 1 && Leads(inside, d + 1, d + 1)
    ensures Leads([open] + inside + [close], d, d)
  {
    assert [close][1..] == [] && [open][1..] == [];
    assert Leads([open], d, d + 1) && Leads([close], d + 1, d);
    LeadsConcat([open], inside, d, d + 1, d + 1);
    LeadsConcat([open] + inside, [close], d, d + 1, d);
  }

  // ----- fixed texts

  lemma GoodConcat(prefix: string, rest: string)
    requires GoodText(prefix) && Tame(rest)
    ensures GoodText(prefix + rest)
  {
  }

  lemma Differs(s: string, i: nat)
    requires i < |s| && i < |PROXY| && s[i] != PROXY[i]
    ensures NotProxy(s)
  {
  }

  lemma FirstDiffers(s: string, more: string)
    requires s != "" && s[0] != 'r'
    ensures NotProxy(s + more) && NotProxy(s)
  {
    assert PROXY[0] == 'r';
    Differs(s + more, 0);
    Differs(s, 0);
  }

  lemma FirstNamesAreTame()
    ensures Tame("X-Frame-Options") && Tame("Cross-Origin-Opener-Policy") && Tame("Cross-Origin-Embedder-Policy")
  {
  }

  lemma LastNamesAreTame()
    ensures Tame("Strict-Transport-Security") && Tame("Permissions-Policy") && Tame("Content-Security-Policy")
  {
  }

  lemma ResourcePolicyIsTame()
    ensures Tame("Cross-Origin-Resource-Policy")
  {
  }

  lemma HeaderNamesAreTame(i: nat)
    requires i < 7
    ensures Tame(STRIP_HEADERS[i])
  {
    FirstNamesAreTame();
    LastNamesAreTame();
    ResourcePolicyIsTame();
  }

  lemma {:induction false} HeaderLeavesLead(prefix: string, names: seq<string>, indent: nat, d: nat)
    requires GoodText(prefix) && prefix[0] != 'r' && indent > 0 && d >= 1
    requires forall i :: 0 <= i < |names| ==> Tame(names[i])
    ensures Leads(HeaderLeaves(prefix, names, indent), d, d) && Quiet(HeaderLeaves(prefix, names, indent))
  {
    if names != [] {
      GoodConcat(prefix, names[0]);
      FirstDiffers(prefix, names[0]);
      HeaderLeavesLead(prefix, names[1..], indent, d);
    }
  }

  lemma LeafLeads(text: string, indent: nat, d: nat)
    requires GoodText(text) && NotProxy(text) && indent > 0 && d >= 1
    ensures Leads([Line(indent, Leaf(text))], d, d)
  {
    LineLeads(Line(indent, Leaf(text)), d);
  }

  /** Three lines in a row that leave the depth alone. */
  lemma ThreeLead(a: Line, b: Line, c: Line, d: nat)
    requires Leads([a], d, d) && Leads([b], d, d) && Leads([c], d, d)
    ensures Leads([a] + [b] + [c], d, d)
  {
    LeadsConcat([a], [b], d, d, d);
    LeadsConcat([a] + [b], [c], d, d, d);
  }

  /** A directive of two texts that does not start like a proxy. */
  lemma TwoTextLeads(first: string, second: string, indent: nat, d: nat)
    requires GoodText(first) && first[0] != 'r' && Tame(second) && indent > 0 && d >= 1
    ensures Leads([Line(indent, Leaf(first + second))], d, d)
  {
    GoodConcat(first, second);
    FirstDiffers(first, second);
    LeafLeads(first + second, indent, d);
  }

  lemma ResourcePolicyLeads(indent: nat, d: nat)
    requires indent > 0 && d >= 1
    ensures Leads([Line(indent, Leaf("Cross-Origin-Resource-Policy" + " cross-origin"))], d, d)
  {
    ResourcePolicyIsTame();
    assert Tame(" cross-origin");
    TwoTextLeads("Cross-Origin-Resource-Policy", " cross-origin", indent, d);
  }

  lemma OriginLeads(origin: string, indent: nat, d: nat)
    requires Tame(origin) && indent > 0 && d >= 1
    ensures Leads([Line(indent, Leaf("Access-Control-Allow-Origin " + origin))], d, d)
  {
    assert Tame("Access-Control-Allow-Origin ");
    GoodConcat("Access-Control-Allow-Origin ", origin);
    FirstDiffers("Access-Control-Allow-Origin ", origin);
    LeafLeads("Access-Control-Allow-Origin " + origin, indent, d);
  }

  lemma CspLeads(csp: string, indent: nat, d: nat)
    requires Tame(csp) && indent > 0 && d >= 1
    ensures Leads([Line(indent, Leaf("Content-Security-Policy \"" + csp + "\""))], d, d)
  {
    var start := "Content-Security-Policy \"";
    assert Tame(start);
    GoodConcat(start, csp);
    GoodConcat(start + csp, "\"");
    FirstDiffers(start + csp, "\"");
    LeafLeads(start + csp + "\"", indent, d);
  }

  lemma SetHeadersLead(m: Mode, indent: nat, d: nat)
    requires GoodMode(m) && indent > 0 && d >= 1
    ensures Leads(SetHeaders(m, indent), d, d) && Quiet(SetHeaders(m, indent))
  {
    ResourcePolicyLeads(indent, d);
    OriginLeads(OriginOf(m.corsOrigin), indent, d);
    CspLeads(m.frameCsp, indent, d);
    ThreeLead(SetHeaders(m, indent)[0], SetHeaders(m, indent)[1], SetHeaders(m, indent)[2], d);
  }

  /** A block with a fixed head around quiet lines. */
  lemma BlockLeads(head: string, inside: seq<Line>, indent: nat, d: nat)
    requires GoodText(head) && Trimmed(head) && head[0] != 'r' && indent > 0 && d >= 1 && Leads(inside, d + 1, d + 1)
    ensures Leads(InBlock(head, inside, indent), d, d)
    ensures Quiet(inside) ==> Quiet(InBlock(head, inside, indent))
    ensures Indented(inside) ==> Indented(InBlock(head, inside, indent))
  {
    FirstDiffers(head, " {");
    WrapLeads(Line(indent, Block(head)), inside, Line(indent, Close), d);
  }

  lemma HeaderLinesLead(prefix: string, count: nat, indent: nat, d: nat)
    requires GoodText(prefix) && prefix[0] != 'r' && indent > 0 && d >= 1 && count <= 7
    ensures Leads(HeaderLeaves(prefix, STRIP_HEADERS[..count], indent), d, d)
    ensures Quiet(HeaderLeaves(prefix, STRIP_HEADERS[..count], indent))
  {
    forall i | 0 <= i < count
      ensures Tame(STRIP_HEADERS[..count][i])
    {
      HeaderNamesAreTame(i);
    }
    HeaderLeavesLead(prefix, STRIP_HEADERS[..count], indent, d);
  }

  lemma QuietConcat(a: seq<Line>, b: seq<Line>, d: nat)
    requires Quiet(a) && Quiet(b) && Leads(a, d, d) && Leads(b, d, d)
    ensures Quiet(a + b) && Leads(a + b, d, d)
  {
    LeadsConcat(a, b, d, d, d);
  }

  lemma FrameHeadersLead(m: Mode, indent: nat, d: nat)
    requires GoodMode(m) && indent > 0 && d >= 1
    ensures Leads(FrameHeaders(m, indent), d, d) && Quiet(FrameHeaders(m, indent))
  {
    FrameInsideLeads(m, indent + 4, d + 1);
    BlockLeads("header", HeaderLeaves("-", STRIP_HEADERS[..6], indent + 4) + SetHeaders(m, indent + 4), indent, d);
  }

  lemma FrameInsideLeads(m: Mode, indent: nat, d: nat)
    requires GoodMode(m) && indent > 0 && d >= 1
    ensures Leads(HeaderLeaves("-", STRIP_HEADERS[..6], indent) + SetHeaders(m, indent), d, d)
    ensures Quiet(HeaderLeaves("-", STRIP_HEADERS[..6], indent) + SetHeaders(m, indent))
  {
    HeaderLinesLead("-", 6, indent, d);
    SetHeadersLead(m, indent, d);
    QuietConcat(HeaderLeaves("-", STRIP_HEADERS[..6], indent), SetHeaders(m, indent), d);
  }

  /** A proxy line with quiet lines in its block serves the current host. */
  lemma ProxyBlockLeads(port: nat, leaves: seq<Line>, indent: nat, d: nat, current: string)
    requires indent > 0 && d >= 1 && Quiet(leaves) && Leads(leaves, d + 1, d + 1)
    ensures var ls := [Line(indent, Proxy(port, true))] + leaves + [Line(indent, Close)];
      && Leads(ls, d, d) && Indented(ls)
      && Served(ls, current) == [(current, Digits(port))] && LastHost(ls, current) == current
  {
    var open, close := Line(indent, Proxy(port, true)), Line(indent, Close);
    WrapLeads(open, leaves, close, d);
    var rest := leaves + [close];
    assert [open] + leaves + [close] == [open] + rest;
    QuietServes(rest, current);
    assert ([open] + rest)[1..] == rest;
  }

  lemma DownLinesLead(indent: nat, d: nat)
    requires indent > 0 && d >= 1
    ensures Leads(HeaderLeaves("header_down -", STRIP_HEADERS, indent), d, d)
    ensures Quiet(HeaderLeaves("header_down -", STRIP_HEADERS, indent))
  {
    assert STRIP_HEADERS[..7] == STRIP_HEADERS;
    HeaderLinesLead("header_down -", 7, indent, d);
  }

  lemma NoLinesLead(d: nat)
    ensures Leads([], d, d) && Quiet([])
  {
  }

  lemma ReverseProxyLeads(port: nat, strip: bool, indent: nat, d: nat, current: string)
    requires indent > 0 && d >= 1
    ensures Leads(ReverseProxy(port, strip, indent), d, d) && Indented(ReverseProxy(port, strip, indent))
    ensures Served(ReverseProxy(port, strip, indent), current) == [(current, Digits(port))]
    ensures LastHost(ReverseProxy(port, strip, indent), current) == current
  {
    if strip {
      DownLinesLead(indent + 4, d + 1);
    } else {
      NoLinesLead(d + 1);
    }
    var leaves := if strip then HeaderLeaves("header_down -", STRIP_HEADERS, indent + 4) else [];
    ProxyBlockLeads(port, leaves, indent, d, current);
  }

  lemma SecretLeads(indent: nat, d: nat)
    requires indent > 0 && d >= 1
    ensures Leads([Line(indent, Secret("dns cloudflare"))], d, d)
  {
    assert Tame("dns cloudflare");
    FirstDiffers("dns cloudflare", "");
    LineLeads(Line(indent, Secret("dns cloudflare")), d);
  }

  lemma ResolversAreTame()
    ensures Tame("resolvers 1.1.1.1 8.8.8.8")
  {
  }

  lemma ThirdDiffers(s: string)
    requires |s| > 2 && s[2] != 'v'
    ensures NotProxy(s)
  {
    assert PROXY[2] == 'v';
    Differs(s, 2);
  }

  lemma ResolversLead(indent: nat, d: nat)
    requires indent > 0 && d >= 1
    ensures Leads([Line(indent, Leaf("resolvers 1.1.1.1 8.8.8.8"))], d, d)
  {
    ResolversAreTame();
    ThirdDiffers("resolvers 1.1.1.1 8.8.8.8");
    LeafLeads("resolvers 1.1.1.1 8.8.8.8", indent, d);
  }

  lemma TimeoutIsTame()
    ensures Tame("propagation_timeout") && Tame(" 5m")
  {
  }

  lemma TimeoutLeads(indent: nat, d: nat)
    requires indent > 0 && d >= 1
    ensures Leads([Line(indent, Leaf("propagation_timeout" + " 5m"))], d, d)
  {
    TimeoutIsTame();
    TwoTextLeads("propagation_timeout", " 5m", indent, d);
  }

  lemma DedicatedTlsLeads(indent: nat, d: nat)
    requires indent > 0 && d >= 1
    ensures Leads(DedicatedTls(indent), d, d) && Quiet(DedicatedTls(indent))
  {
    var dns, resolvers, timeout := Line(indent + 4, Secret("dns cloudflare")),
      Line(indent + 4, Leaf("resolvers 1.1.1.1 8.8.8.8")), Line(indent + 4, Leaf("propagation_timeout" + " 5m"));
    SecretLeads(indent + 4, d + 1);
    ResolversLead(indent + 4, d + 1);
    TimeoutLeads(indent + 4, d + 1);
    ThreeInBlock("tls", dns, resolvers, timeout, indent, d);
  }

  lemma ThreeInBlock(head: string, a: Line, b: Line, c: Line, indent: nat, d: nat)
    requires GoodText(head) && Trimmed(head) && head[0] != 'r' && indent > 0 && d >= 1
    requires Quiet([a]) && Quiet([b]) && Quiet([c])
    requires Leads([a], d + 1, d + 1) && Leads([b], d + 1, d + 1) && Leads([c], d + 1, d + 1)
    ensures Leads(InBlock(head, [a] + [b] + [c], indent), d, d) && Quiet(InBlock(head, [a] + [b] + [c], indent))
  {
    ThreeLead(a, b, c, d + 1);
    QuietConcat([a], [b], d + 1);
    QuietConcat([a] + [b], [c], d + 1);
    BlockLeads(head, [a] + [b] + [c], indent, d);
  }

  lemma ZoneTlsLeads(d: nat)
    requires d >= 1
    ensures Leads(ZoneTls(), d, d) && Quiet(ZoneTls())
  {
    SecretLeads(8, d + 1);
    BlockLeads("tls", [Line(8, Secret("dns cloudflare"))], 4, d);
  }

  // ----- names and labels

  lemma PlainIsTame(s: string)
    requires Plain(s)
    ensures Tame(s)
  {
    forall i | 0 <= i < |s|
      ensures TameChar(s[i])
    {
      assert s[i] in s;
    }
  }

  lemma LabelIsTame(name: string)
    ensures Tame(SanitizeLabel(name))
  {
    LabelIsPlain(name);
    PlainIsTame(SanitizeLabel(name));
  }

  /** A host name can stand at the head of a site: it is never taken for a directive, since an
      underscore comes early in reverse_proxy. */
  lemma HostHead(h: string)
    requires IsHostname(h)
    ensures GoodText(h) && Trimmed(h) && NotProxy(h + " {") && Tame(h)
  {
    assert PROXY[7] == '_' && (forall i :: 0 <= i < 7 ==> PROXY[i] != ' ');
    Differs(h + " {", if |h| > 7 then 7 else |h|);
  }

  // ----- sites

  lemma OneLine(l: Line, current: string)
    ensures Heads([l]) == if l.indent == 0 && l.text.Block? then [l.text.head] else []
    ensures Served([l], current) == if l.text.Proxy? then [(current, Digits(l.text.port))] else []
    ensures LastHost([l], current) == HostOf(l, current)
  {
    assert [l][1..] == [];
  }

  lemma TwoLines(a: Line, b: Line, current: string)
    requires !a.text.Proxy? && !b.text.Proxy?
    ensures Heads([a, b]) == Heads([a]) + Heads([b])
    ensures Served([a, b], current) == [] && LastHost([a, b], current) == HostOf(b, HostOf(a, current))
  {
    assert [a, b] == [a] + [b];
    HeadsConcat([a], [b]);
    ServedConcat([a], [b], current);
    OneLine(a, current);
    OneLine(b, HostOf(a, current));
  }

  /** A site is well nested, is the one site of its lines, and serves what is inside it. */
  lemma SiteLeads(note: string, address: string, inside: seq<Line>, current: string)
    requires Tame(note) && GoodText(address) && Trimmed(address) && NotProxy(address + " {")
    requires Leads(inside, 1, 1) && Indented(inside)
    ensures Leads(Site(note, address, inside), 0, 0)
    ensures Heads(Site(note, address, inside)) == [address]
    ensures Served(Site(note, address, inside), current) == Served(inside, address)
  {
    var comment, header, close, blank := Line(0, Note(note)), Line(0, Block(address)), Line(0, Close), Line(0, Blank);
    var top, bottom := [comment, header], [close, blank];
    assert top[1..] == [header] && [header][1..] == [] && bottom[1..] == [blank] && [blank][1..] == [];
    assert Leads([header], 0, 1) && Leads([blank], 0, 0);
    assert Leads(top, 0, 1) && Leads(bottom, 1, 0);
    LeadsConcat(top, inside, 0, 1, 1);
    LeadsConcat(top + inside, bottom, 0, 1, 0);
    TwoLines(comment, header, current);
    TwoLines(close, blank, LastHost(top + inside, current));
    OneLine(comment, current);
    OneLine(header, current);
    OneLine(close, current);
    OneLine(blank, current);
    IndentedHeads(inside);
    HeadsConcat(top, inside);
    HeadsConcat(top + inside, bottom);
    ServedConcat(top, inside, current);
    ServedConcat(top + inside, bottom, current);
  }
}
