/** Reading generated lines back: well-nested lines, and what the two readers make of them. */
module CaddyReading {
  import opened Wrappers
  import opened Domains
  import opened CaddyLines
  import opened CaddyLineFacts

  function ShowAll(ls: seq<Line>): (r: seq<string>)
    ensures |r| == |ls|
  {
    if ls == [] then [] else ShowAll(ls[..|ls| - 1]) + [Show(ls[|ls| - 1])]
  }

  // ----- nesting

  /** An unindented line opens a site only at depth 0, and every line at depth 0 is unindented. */
  ghost predicate InPlace(l: Line, depth: nat) {
    && Good(l)
    && (depth == 0 ==> l.indent == 0)
    && (l.indent == 0 && l.text.Block? ==> depth == 0)
  }

  /** Good lines in their places, that lead from one depth to another without going below zero. */
  ghost predicate Leads(ls: seq<Line>, from: nat, to: nat) {
    if ls == [] then from == to
    else InPlace(ls[0], from) && from + Delta(ls[0].text) >= 0 && Leads(ls[1..], from + Delta(ls[0].text), to)
  }

  lemma {:induction false} LeadsConcat(a: seq<Line>, b: seq<Line>, d: nat, e: nat, f: nat)
    requires Leads(a, d, e) && Leads(b, e, f)
    ensures Leads(a + b, d, f)
  {
    if a == [] {
      assert a + b == b;
    } else {
      assert (a + b)[1..] == a[1..] + b;
      LeadsConcat(a[1..], b, d + Delta(a[0].text), e, f);
    }
  }

  /** The addresses of the sites among the lines. */
  function Heads(ls: seq<Line>): seq<string> {
    if ls == [] then []
    else (if ls[0].indent == 0 && ls[0].text.Block? then [ls[0].text.head] else []) + Heads(ls[1..])
  }

  lemma {:induction false} HeadsConcat(a: seq<Line>, b: seq<Line>)
    ensures Heads(a + b) == Heads(a) + Heads(b)
  {
    if a == [] {
      assert a + b == b;
    } else {
      assert (a + b)[1..] == a[1..] + b;
      HeadsConcat(a[1..], b);
    }
  }

  // ----- routes

  function HostOf(l: Line, current: string): string {
    if l.indent == 0 && l.text.Block? then l.text.head else if l.text.Matcher? then l.text.host else current
  }

  function LastHost(ls: seq<Line>, current: string): string {
    if ls == [] then current else LastHost(ls[1..], HostOf(ls[0], current))
  }

  /** Every proxy among the lines with the host it serves. */
  function Served(ls: seq<Line>, current: string): seq<(string, string)> {
    if ls == [] then []
    else
      (if ls[0].text.Proxy? then [(current, Digits(ls[0].text.port))] else [])
      + Served(ls[1..], HostOf(ls[0], current))
  }

  lemma Join3<T>(a: seq<T>, b: seq<T>, c: seq<T>)
    ensures a + (b + c) == (a + b) + c
  {
  }

  lemma {:induction false} ServedConcat(a: seq<Line>, b: seq<Line>, current: string)
    ensures Served(a + b, current) == Served(a, current) + Served(b, LastHost(a, current))
    ensures LastHost(a + b, current) == LastHost(b, LastHost(a, current))
  {
    if a == [] {
      assert a + b == b;
    } else {
      assert (a + b)[1..] == a[1..] + b;
      ServedConcat(a[1..], b, HostOf(a[0], current));
      Join3(if a[0].text.Proxy? then [(current, Digits(a[0].text.port))] else [],
            Served(a[1..], HostOf(a[0], current)), Served(b, LastHost(a, current)));
    }
  }

  // ----- the readers on well-nested lines

  lemma {:induction false} LeadsSplit(a: seq<Line>, l: Line, d: nat, f: nat) returns (e: nat)
    requires Leads(a + [l], d, f)
    ensures Leads(a, d, e) && InPlace(l, e) && e + Delta(l.text) == f
  {
    if a == [] {
      assert a + [l] == [l];
      e := d;
    } else {
      assert (a + [l])[1..] == a[1..] + [l];
      e := LeadsSplit(a[1..], l, d + Delta(a[0].text), f);
    }
  }

  lemma HeadsSnoc(a: seq<Line>, l: Line)
    ensures Heads(a + [l]) == Heads(a) + if l.indent == 0 && l.text.Block? then [l.text.head] else []
  {
    HeadsConcat(a, [l]);
    assert [l][1..] == [];
  }

  lemma HostBlocksSnoc(raws: seq<string>, raw: string)
    ensures HostBlocks(raws + [raw]) == HostBlocks(raws) + match HeaderOf(raw) case None => [] case Some(a) => [a]
  {
    assert (raws + [raw])[..|raws|] == raws;
  }

  lemma SitesSnoc(raws: seq<string>, raw: string)
    ensures Sites(raws + [raw])
            == Sites(raws) + match AddressOf(raw) case None => [] case Some(a) => if Depth(raws) == 0 then [a] else []
  {
    assert (raws + [raw])[..|raws|] == raws;
  }

  /** The sites that the two readers find, one line further. */
  lemma SitesAgree(a: seq<Line>, l: Line, e: nat)
    requires InPlace(l, e) && Depth(ShowAll(a)) == e
    requires HostBlocks(ShowAll(a)) == Heads(a) == Sites(ShowAll(a))
    ensures HostBlocks(ShowAll(a + [l])) == Heads(a + [l]) == Sites(ShowAll(a + [l]))
  {
    HeadsSnoc(a, l);
    ShowAllSnoc(a, l);
    HostBlocksSnoc(ShowAll(a), Show(l));
    SitesSnoc(ShowAll(a), Show(l));
    LineHeader(l);
    if e == 0 && l.text.Block? {
      BlockAddress(l.text.head);
      assert Show(l) == l.text.head + " {";
    }
  }

  lemma ShowAllSnoc(a: seq<Line>, l: Line)
    ensures ShowAll(a + [l]) == ShowAll(a) + [Show(l)]
  {
    assert (a + [l])[..|a|] == a;
  }

  lemma DepthAgrees(a: seq<Line>, l: Line, e: nat)
    requires InPlace(l, e) && e + Delta(l.text) >= 0
    requires Depth(ShowAll(a)) == e && NeverNegative(ShowAll(a))
    ensures Depth(ShowAll(a + [l])) == e + Delta(l.text) && NeverNegative(ShowAll(a + [l]))
  {
    LineDepth(l);
    ShowAllSnoc(a, l);
    assert (ShowAll(a) + [Show(l)])[..|a|] == ShowAll(a);
  }

  /** On well-nested lines the indentation-only reader and the brace-depth reader find the same
      sites, namely the ones that were meant; the depth is the nesting and never goes negative. */
  lemma {:induction false} ReadersAgree(ls: seq<Line>, d: nat)
    requires Leads(ls, 0, d)
    ensures HostBlocks(ShowAll(ls)) == Heads(ls) == Sites(ShowAll(ls))
    ensures Depth(ShowAll(ls)) == d && NeverNegative(ShowAll(ls))
    decreases |ls|
  {
    if ls != [] {
      var a, l := ls[..|ls| - 1], ls[|ls| - 1];
      assert ls == a + [l];
      var e := LeadsSplit(a, l, 0, d);
      ReadersAgree(a, e);
      SitesAgree(a, l, e);
      DepthAgrees(a, l, e);
    }
  }

  ghost predicate AllLinesGood(ls: seq<Line>) {
    forall i :: 0 <= i < |ls| ==> Good(ls[i])
  }

  /** Reading the routes back gives every proxy with its host. */
  lemma {:induction false} RoutesReadBack(ls: seq<Line>)
    requires AllLinesGood(ls)
    ensures Routed(ShowAll(ls)) == Served(ls, "") && CurrentHost(ShowAll(ls)) == LastHost(ls, "")
  {
    if ls != [] {
      var a, l := ls[..|ls| - 1], ls[|ls| - 1];
      assert ls == a + [l];
      RoutesReadBack(a);
      ServedConcat(a, [l], "");
      LineHeader(l);
      LineProxy(l);
      LineMatcher(l);
      assert ShowAll(ls)[..|ls| - 1] == ShowAll(a);
    }
  }

  lemma {:induction false} LeadsGood(ls: seq<Line>, d: nat, e: nat)
    requires Leads(ls, d, e)
    ensures AllLinesGood(ls)
  {
    if ls != [] {
      LeadsGood(ls[1..], d + Delta(ls[0].text), e);
      assert ls == [ls[0]] + ls[1..];
    }
  }

  // ----- the whole text

  /** `"\n".join(lines)`. */
  function Join(raws: seq<string>): string {
    if raws == [] then "" else if |raws| == 1 then raws[0] else raws[0] + "\n" + Join(raws[1..])
  }

  function BreakAt(s: string): (k: nat)
    ensures k <= |s| && (k < |s| ==> IsBreak(s[k]))
    ensures forall i :: 0 <= i < k ==> !IsBreak(s[i])
  {
    if s == "" || IsBreak(s[0]) then 0 else 1 + BreakAt(s[1..])
  }

  /** `text.splitlines()`: a carriage return and a line feed together are one break. */
  function SplitLines(s: string): seq<string>
    decreases |s|
  {
    if s == "" then []
    else
      var k := BreakAt(s);
      if k == |s| then [s]
      else
        var next := if s[k] == '\r' && k + 1 < |s| && s[k + 1] == '\n' then k + 2 else k + 1;
        [s[..k]] + SplitLines(s[next..])
  }

  ghost predicate Unbroken(s: string) {
    forall i :: 0 <= i < |s| ==> !IsBreak(s[i])
  }

  lemma {:induction false} BreakAfter(line: string, rest: string)
    requires Unbroken(line)
    ensures BreakAt(line + "\n" + rest) == |line| && BreakAt(line) == |line|
  {
    if line == "" {
      assert line + "\n" + rest == "\n" + rest;
    } else {
      assert (line + "\n" + rest)[1..] == line[1..] + "\n" + rest;
      BreakAfter(line[1..], rest);
    }
  }

  lemma SplitFirst(line: string, rest: string)
    requires Unbroken(line)
    ensures SplitLines(line + "\n" + rest) == [line] + SplitLines(rest)
  {
    var s := line + "\n" + rest;
    BreakAfter(line, rest);
    assert s[|line|] == '\n' && s[|line| + 1..] == rest && s[..|line|] == line;
  }

  /** Splitting the text gives the lines back, except an empty last line. */
  function WithoutLastBlank(raws: seq<string>): seq<string> {
    if raws != [] && raws[|raws| - 1] == "" then raws[..|raws| - 1] else raws
  }

  ghost predicate AllUnbroken(raws: seq<string>) {
    forall i :: 0 <= i < |raws| ==> Unbroken(raws[i])
  }

  lemma SplitStep(line: string, rest: seq<string>)
    requires Unbroken(line) && rest != [] && SplitLines(Join(rest)) == WithoutLastBlank(rest)
    ensures SplitLines(Join([line] + rest)) == WithoutLastBlank([line] + rest)
  {
    assert ([line] + rest)[1..] == rest;
    SplitFirst(line, Join(rest));
    assert [line] + WithoutLastBlank(rest) == WithoutLastBlank([line] + rest);
  }

  lemma {:induction false} SplitJoin(raws: seq<string>)
    requires AllUnbroken(raws)
    ensures SplitLines(Join(raws)) == WithoutLastBlank(raws)
  {
    if |raws| == 1 {
      SplitOne(raws[0]);
      assert raws == [raws[0]];
    } else if |raws| > 1 {
      SplitJoin(raws[1..]);
      SplitStep(raws[0], raws[1..]);
      assert raws == [raws[0]] + raws[1..];
    }
  }

  lemma SplitOne(line: string)
    requires Unbroken(line)
    ensures SplitLines(line) == if line == "" then [] else [line]
  {
    BreakAfter(line, "");
  }

  /** `parse_host_blocks`. */
  method ParseHostBlocks(text: string) returns (blocks: seq<string>)
    ensures blocks == HostBlocks(SplitLines(text))
  {
    blocks := [];
    var lines := SplitLines(text);
    for i := 0 to |lines|
      invariant blocks == HostBlocks(lines[..i])
    {
      assert lines[..i + 1][..i] == lines[..i];
      var raw := lines[i];
      if raw == "" || IsSpace(raw[0]) {
        continue;
      }
      var line := Strip(raw);
      if line == "" || line[|line| - 1] != '{' || line[0] == '#' {
        continue;
      }
      var address := Strip(line[..|line| - 1]);
      if address == "" {
        continue;
      }
      blocks := blocks + [address];
    }
    assert lines[..|lines|] == lines;
  }

  lemma {:induction false} ShownUnbroken(ls: seq<Line>)
    requires AllLinesGood(ls)
    ensures AllUnbroken(ShowAll(ls))
  {
    if ls != [] {
      ShownUnbroken(ls[..|ls| - 1]);
      LineUnbroken(ls[|ls| - 1]);
    }
  }

  /** For the whole text of well-nested lines: parsing it by indentation gives the intended sites,
      which are also the ones at brace depth 0; and the depth ends at 0. */
  lemma TextReadBack(ls: seq<Line>)
    requires Leads(ls, 0, 0)
    ensures HostBlocks(SplitLines(Join(ShowAll(ls)))) == Heads(ls) == Sites(SplitLines(Join(ShowAll(ls))))
    ensures Depth(SplitLines(Join(ShowAll(ls)))) == 0 && NeverNegative(SplitLines(Join(ShowAll(ls))))
  {
    var raws := ShowAll(ls);
    LeadsGood(ls, 0, 0);
    ShownUnbroken(ls);
    SplitJoin(raws);
    ReadersAgree(ls, 0);
    if WithoutLastBlank(raws) != raws {
      assert HeaderOf("") == None && AddressOf("") == None;
      assert Balance("") == 0 && LineBalance("") == 0;
    }
  }
}
