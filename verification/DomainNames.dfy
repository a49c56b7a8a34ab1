/** What becomes of the texts that people enter for host names and labels (syte/domain_utils.py). */
module DomainNames {
  import opened Domains

  // ----- lower case

  /** Capitals A to Z, by their code points, become the letter 32 further on; nothing else changes. */
  lemma {:induction false} LowerIs(s: string)
    ensures |Lower(s)| == |s|
    ensures forall i :: 0 <= i < |s| ==>
      Lower(s)[i] as int == if 65 <= s[i] as int <= 90 then s[i] as int + 32 else s[i] as int
  {
    if s != "" {
      LowerIs(s[1..]);
    }
  }

  lemma {:induction false} LowerConcat(a: string, b: string)
    ensures Lower(a + b) == Lower(a) + Lower(b)
  {
    if a == "" {
      assert a + b == b;
    } else {
      assert (a + b)[1..] == a[1..] + b;
      LowerConcat(a[1..], b);
    }
  }

  // ----- finding the host in an address

  lemma {:induction false} RStripKeeps(a: string, t: string)
    requires t != "" && !IsSpace(t[0])
    ensures RStrip(a + t) == a + RStrip(t)
    ensures RStrip(t) != "" && RStrip(t)[0] == t[0]
  {
    if IsSpace(t[|t| - 1]) {
      assert (a + t)[|a + t| - 1] == t[|t| - 1] && (a + t)[..|a + t| - 1] == a + t[..|t| - 1];
      RStripKeeps(a, t[..|t| - 1]);
    } else {
      assert (a + t)[|a + t| - 1] == t[|t| - 1];
    }
  }

  lemma {:induction false} UpToConcat(a: string, b: string, c: char)
    requires c !in a
    ensures UpTo(a + b, c) == a + UpTo(b, c)
  {
    if a == "" {
      assert a + b == b;
    } else {
      assert (a + b)[1..] == a[1..] + b && a[0] in a && forall d :: d in a[1..] ==> d in a;
      UpToConcat(a[1..], b, c);
    }
  }

  predicate OnlyDots(s: string) {
    forall i :: 0 <= i < |s| ==> s[i] == '.'
  }

  lemma {:induction false} DotsGo(h: string, dots: string)
    requires OnlyDots(dots) && (h == "" || h[|h| - 1] != '.')
    ensures RStripDots(h + dots) == h
  {
    if dots == "" {
      assert h + dots == h;
    } else {
      assert (h + dots)[..|h + dots| - 1] == h + dots[..|dots| - 1];
      DotsGo(h, dots[..|dots| - 1]);
    }
  }

  /** What may follow a host name: nothing, a path or a port. */
  predicate Tail(t: string) {
    t == "" || t[0] == '/' || t[0] == ':'
  }

  predicate Plainly(a: string) {
    '/' !in a && ':' !in a
  }

  lemma CutAtTail(a: string, t: string)
    requires Plainly(a) && Tail(t)
    ensures UpTo(UpTo(a + t, '/'), ':') == a
  {
    UpToConcat(a, t, '/');
    UpToConcat(a, UpTo(t, '/'), ':');
  }

  /** Only the scheme starts like a scheme. */
  lemma NoSchemeHere(a: string, t: string, name: string)
    requires Plainly(a) && Tail(t) && Plainly(name) && a != name
    ensures RemovePrefix(a + t, name + "://") == a + t
  {
    StartsWithIsPrefix(a + t, name + "://");
    if |a| == |name| {
      assert (a + t)[..|a|] == a && (name + "://")[..|a|] == name;
    } else {
      SchemeEndsElsewhere(a, t, name);
    }
  }

  lemma SchemeEndsElsewhere(a: string, t: string, name: string)
    requires Plainly(a) && Tail(t) && Plainly(name) && |a| != |name|
    ensures !(name + "://" <= a + t)
  {
    var p := name + "://";
    if |a| < |name| && t != "" {
      assert (a + t)[|a|] == t[0] && p[|a|] == name[|a|] && name[|a|] in name;
    } else if |name| < |a| {
      assert (a + t)[|name|] == a[|name|] && a[|name|] in a && p[|name|] == ':';
    }
  }

  lemma SchemeGoes(prefix: string, rest: string)
    ensures RemovePrefix(prefix + rest, prefix) == rest
  {
    StartsWithIsPrefix(prefix + rest, prefix);
  }

  /** Dropping the schemes, one after the other. */
  function Unschemed(d: string): string {
    RemovePrefix(RemovePrefix(d, HTTPS), HTTP)
  }

  lemma SchemesGo(scheme: string, a: string, t: string)
    requires scheme == "" || scheme == "https" || scheme == "http"
    requires Plainly(a) && Tail(t) && a != "https" && a != "http"
    ensures Unschemed((if scheme == "" then "" else scheme + "://") + (a + t)) == a + t
  {
    assert HTTPS == "https" + "://" && HTTP == "http" + "://";
    if scheme == "" {
      assert "" + (a + t) == a + t;
      NoSchemeHere(a, t, "https");
      NoSchemeHere(a, t, "http");
    } else if scheme == "https" {
      SchemeGoes(HTTPS, a + t);
      NoSchemeHere(a, t, "http");
    } else {
      assert HTTP + (a + t) == "http" + ("://" + (a + t));
      NoSchemeHere("http", "://" + (a + t), "https");
      SchemeGoes(HTTP, a + t);
    }
  }

  lemma HostnameIsPlain(h: string)
    requires IsHostname(h)
    ensures Plainly(h) && h[|h| - 1] != '.' && !IsSpace(h[0]) && !IsSpace(h[|h| - 1])
  {
    assert forall i :: 0 <= i < |h| ==> HostChar(h[i]);
  }

  lemma DotsArePlain(h: string, dots: string)
    requires IsHostname(h) && OnlyDots(dots)
    ensures h + dots == "https" ==> h == "https"
    ensures h + dots == "http" ==> h == "http"
    ensures Plainly(h + dots)
  {
    HostnameIsPlain(h);
    assert forall c :: c in h + dots ==> c in h || c == '.';
    if dots != "" {
      assert (h + dots)[|h + dots| - 1] == '.';
    } else {
      assert h + dots == h;
    }
  }

  /** From a trimmed text of a scheme, a host in whatever case, dots, and a path or a port, the normal
      form is the host in lower case. */
  lemma HostIsFound(scheme: string, host: string, dots: string, tail: string)
    requires IsHostname(Lower(host)) && OnlyDots(dots) && Tail(tail)
    requires Lower(scheme) == "" || Lower(scheme) == "https" || Lower(scheme) == "http"
    requires Lower(host) != "https" && Lower(host) != "http"
    ensures NormalizeDomain((if scheme == "" then "" else scheme + "://") + (host + dots + tail)) == Lower(host)
  {
    var h := Lower(host);
    var front := if scheme == "" then "" else scheme + "://";
    var text := front + (host + dots + tail);
    HostnameIsPlain(h);
    DotsArePlain(h, dots);
    var t := StrippedText(scheme, host, dots, tail);
    LowerParts(scheme, host, dots, t);
    LowerTail(t);
    SchemesGo(Lower(scheme), h + dots, Lower(t));
    CutAtTail(h + dots, Lower(t));
    DotsGo(h, dots);
  }

  lemma LowerTail(t: string)
    requires Tail(t)
    ensures Tail(Lower(t))
  {
  }

  lemma LowerDots(dots: string)
    requires OnlyDots(dots)
    ensures Lower(dots) == dots
  {
    LowerIs(dots);
    assert forall i :: 0 <= i < |dots| ==> Lower(dots)[i] == dots[i];
  }

  lemma LowerParts(scheme: string, host: string, dots: string, t: string)
    requires OnlyDots(dots)
    ensures Lower((if scheme == "" then "" else scheme + "://") + (host + dots + t))
            == (if Lower(scheme) == "" then "" else Lower(scheme) + "://") + (Lower(host) + dots + Lower(t))
  {
    var front := if scheme == "" then "" else scheme + "://";
    LowerIs(scheme);
    LowerIs("://");
    assert Lower("://") == "://";
    LowerConcat(scheme, "://");
    LowerDots(dots);
    LowerConcat(host, dots);
    LowerConcat(host + dots, t);
    LowerConcat(front, host + dots + t);
  }

  /** Stripping such a text only touches its tail. */
  lemma StripKeeps(a: string, tail: string) returns (t: string)
    requires a != "" && !IsSpace(a[0]) && !IsSpace(a[|a| - 1]) && Tail(tail)
    ensures Tail(t) && Strip(a + tail) == a + t
  {
    LStripIsSuffix(a + tail);
    if tail == "" {
      t := "";
      assert a + tail == a;
      RStripIsPrefix(a);
    } else {
      t := RStrip(tail);
      RStripKeeps(a, tail);
    }
  }

  lemma Regroup(a: string, b: string, c: string, d: string)
    ensures a + (b + c + d) == (a + (b + c)) + d
  {
  }

  lemma StrippedText(scheme: string, host: string, dots: string, tail: string) returns (t: string)
    requires IsHostname(Lower(host)) && OnlyDots(dots) && Tail(tail)
    requires Lower(scheme) == "" || Lower(scheme) == "https" || Lower(scheme) == "http"
    ensures Tail(t)
    ensures var front := if scheme == "" then "" else scheme + "://";
      Strip(front + (host + dots + tail)) == front + (host + dots + t)
  {
    var front := if scheme == "" then "" else scheme + "://";
    FirstAndLast(scheme, host, dots);
    t := StripKeeps(front + (host + dots), tail);
    Regroup(front, host, dots, tail);
    Regroup(front, host, dots, t);
  }

  lemma FirstAndLast(scheme: string, host: string, dots: string)
    requires IsHostname(Lower(host)) && OnlyDots(dots)
    requires Lower(scheme) == "" || Lower(scheme) == "https" || Lower(scheme) == "http"
    ensures host != "" && !IsSpace(host[0]) && !IsSpace((host + dots)[|host + dots| - 1])
    ensures scheme != "" ==> !IsSpace(scheme[0])
  {
    HostEndsAre(host);
    var all := host + dots;
    assert all[|all| - 1] == if dots == "" then host[|host| - 1] else dots[|dots| - 1];
    if scheme != "" {
      LowerIs(scheme);
      assert Lower(scheme)[0] == 'h';
    }
  }

  lemma HostEndsAre(host: string)
    requires IsHostname(Lower(host))
    ensures host != "" && !IsSpace(host[0]) && !IsSpace(host[|host| - 1])
  {
    LowerIs(host);
    EndIsNoSpace(host[0], Lower(host)[0]);
    EndIsNoSpace(host[|host| - 1], Lower(host)[|host| - 1]);
  }

  lemma EndIsNoSpace(c: char, lower: char)
    requires lower as int == if 65 <= c as int <= 90 then c as int + 32 else c as int
    requires HostEnd(lower)
    ensures !IsSpace(c)
  {
  }

  /** White space around a text makes no difference. */
  lemma StripFirst(domain: string)
    ensures NormalizeDomain(Strip(domain)) == NormalizeDomain(domain)
  {
    StripTrims(domain);
    StripTrims(Strip(domain));
  }

  // ----- host names

  predicate MiddleChar(c: char) {
    var u := c as int;
    97 <= u <= 122 || 48 <= u <= 57 || u == 46 || u == 45
  }

  predicate EndChar(c: char) {
    var u := c as int;
    97 <= u <= 122 || 48 <= u <= 57
  }

  /** Two end characters with at most 251 characters between them. */
  ghost predicate Framed(s: string, a: char, middle: string, b: char) {
    && s == [a] + middle + [b] && EndChar(a) && EndChar(b) && |middle| <= 251
    && forall i :: 0 <= i < |middle| ==> MiddleChar(middle[i])
  }

  lemma CharsAre(c: char)
    ensures HostEnd(c) <==> EndChar(c)
    ensures HostChar(c) <==> MiddleChar(c)
  {
  }

  lemma HostnameIsFramed(s: string)
    requires IsHostname(s) && |s| > 1
    ensures Framed(s, s[0], s[1..|s| - 1], s[|s| - 1])
  {
    var middle := s[1..|s| - 1];
    assert s == [s[0]] + middle + [s[|s| - 1]];
    forall i | 0 <= i < |middle|
      ensures MiddleChar(middle[i])
    {
      assert HostChar(s[i + 1]);
      CharsAre(s[i + 1]);
    }
  }

  lemma FramedIsHostname(s: string, a: char, middle: string, b: char)
    requires Framed(s, a, middle, b)
    ensures IsHostname(s)
  {
    CharsAre(a);
    CharsAre(b);
    forall i | 0 <= i < |s|
      ensures HostChar(s[i])
    {
      if 0 < i < |s| - 1 {
        assert s[i] == middle[i - 1];
        CharsAre(middle[i - 1]);
      }
    }
  }

  /** A host name is one end character, or two with at most 251 characters between them. */
  lemma IsHostnameIff(s: string)
    ensures IsHostname(s) <==> (|s| == 1 && EndChar(s[0])) || exists a, middle, b :: Framed(s, a, middle, b)
  {
    if |s| == 1 {
      CharsAre(s[0]);
    } else if IsHostname(s) {
      HostnameIsFramed(s);
    }
    forall a, middle, b | Framed(s, a, middle, b)
      ensures IsHostname(s)
    {
      FramedIsHostname(s, a, middle, b);
    }
  }

  // ----- labels

  /** No two white spaces side by side, and none but plain spaces. */
  predicate Even(s: string) {
    && (forall i :: 0 <= i < |s| && IsSpace(s[i]) ==> s[i] == ' ')
    && (forall i :: 0 <= i < |s| - 1 ==> !(IsSpace(s[i]) && IsSpace(s[i + 1])))
  }

  lemma {:induction false} EvenIsFixed(s: string)
    requires Even(s)
    ensures Squeeze(s) == s
    decreases |s|
  {
    if s != "" {
      assert s == [s[0]] + s[1..];
      EvenTail(s);
      EvenIsFixed(s[1..]);
      if IsSpace(s[0]) {
        LStripIsSuffix(s[1..]);
      }
    }
  }

  lemma EvenTail(s: string)
    requires Even(s) && s != ""
    ensures Even(s[1..]) && (IsSpace(s[0]) && |s| > 1 ==> !IsSpace(s[1]))
  {
    forall i | 0 <= i < |s[1..]| - 1
      ensures !(IsSpace(s[1..][i]) && IsSpace(s[1..][i + 1]))
    {
      assert !(IsSpace(s[i + 1]) && IsSpace(s[i + 2]));
    }
  }

  /** Line ends become spaces, braces become parentheses, and nothing else changes. */
  lemma {:induction false} LabelCharsAre(s: string)
    ensures |LabelChars(s)| == |s|
    ensures forall i :: 0 <= i < |s| ==>
      LabelChars(s)[i] == match s[i]
                          case '\r' => ' '
                          case '\n' => ' '
                          case '{' => '('
                          case '}' => ')'
                          case c => c
  {
    if s != "" {
      LabelCharsAre(s[1..]);
    }
  }

  /** A label that is fit already stays as it is; every label has at most 120 characters. */
  lemma FitLabelIsFixed(s: string)
    ensures |SanitizeLabel(s)| <= 120
    ensures 0 < |s| <= 120 && Even(s) && Trimmed(s) && '{' !in s && '}' !in s ==> SanitizeLabel(s) == s
    ensures SanitizeLabel("") == SanitizeLabel("project")
  {
    if 0 < |s| <= 120 && Even(s) && Trimmed(s) && '{' !in s && '}' !in s {
      LabelCharsAre(s);
      forall i | 0 <= i < |s|
        ensures LabelChars(s)[i] == s[i]
      {
        assert s[i] in s;
        assert IsSpace(s[i]) ==> s[i] == ' ';
      }
      assert LabelChars(s) == s;
      EvenIsFixed(s);
      StripTrims(s);
    }
  }
}
