/** What the readers find in the text of a single generated line. */
module CaddyLineFacts {
  import opened Wrappers
  import opened Domains
  import opened CaddyLines

  // ----- counting braces

  lemma {:induction false} BalanceConcat(a: string, b: string)
    ensures Balance(a + b) == Balance(a) + Balance(b)
    ensures Dip(a + b) == if Dip(a) <= Balance(a) + Dip(b) then Dip(a) else Balance(a) + Dip(b)
    ensures Dip(a) <= 0 && Dip(a) <= Balance(a)
    decreases |b|
  {
    if b == "" {
      assert a + b == a;
      DipBounds(a);
    } else {
      assert (a + b)[..|a + b| - 1] == a + b[..|b| - 1];
      BalanceConcat(a, b[..|b| - 1]);
    }
  }

  lemma {:induction false} DipBounds(s: string)
    ensures Dip(s) <= 0 && Dip(s) <= Balance(s)
  {
    if s != "" {
      DipBounds(s[..|s| - 1]);
    }
  }

  lemma {:induction false} TameBalance(s: string)
    requires Tame(s)
    ensures Balance(s) == 0 && Dip(s) == 0
  {
    if s != "" {
      TameBalance(s[..|s| - 1]);
    }
  }

  /** A tame text with a brace behind it. */
  lemma OpenBalance(s: string)
    requires Tame(s)
    ensures Balance(s + " {") == 1 && Dip(s + " {") == 0
  {
    TameBalance(s);
    BalanceConcat(s, " {");
    assert " {"[..1] == " " && " "[..0] == "";
  }

  lemma SecretNameIsTame()
    ensures Tame(SECRET_NAME)
  {
    assert Tame("env.CLOUDFLARE") && Tame("_API_TOKEN");
  }

  lemma SecretIsBalanced()
    ensures Balance(SECRET) == 0 && Dip(SECRET) == 0
  {
    SecretNameIsTame();
    TameBalance(SECRET_NAME);
    OpenBalance("");
    assert "" + " {" == " {";
    BalanceConcat(" {", SECRET_NAME);
    BalanceConcat(" {" + SECRET_NAME, "}");
    assert "}"[..0] == "";
  }

  // ----- leading spaces

  lemma {:induction false} LStripSpaces(n: nat, t: string)
    requires t == "" || !IsSpace(t[0])
    ensures LStrip(Spaces(n) + t) == t
  {
    if n == 0 {
      assert Spaces(n) + t == t;
    } else {
      assert (Spaces(n) + t)[1..] == Spaces(n - 1) + t;
      LStripSpaces(n - 1, t);
    }
  }

  lemma {:induction false} UpToStops(a: string, c: char, b: string)
    requires forall i :: 0 <= i < |a| ==> a[i] != c
    ensures UpTo(a + [c] + b, c) == a && UpTo(a, c) == a
  {
    if a == "" {
      assert a + [c] + b == [c] + b;
    } else {
      assert (a + [c] + b)[1..] == a[1..] + [c] + b;
      UpToStops(a[1..], c, b);
    }
  }

  lemma TextStart(l: Line)
    requires Good(l)
    ensures ShowText(l.text) == "" || !IsSpace(ShowText(l.text)[0])
    ensures LStrip(Show(l)) == ShowText(l.text)
    ensures l.text.Note? <==> ShowText(l.text) != "" && ShowText(l.text)[0] == '#'
    ensures l.text.Matcher? <==> ShowText(l.text) != "" && ShowText(l.text)[0] == '@'
  {
    assert PROXY[0] == 'r';
    LStripSpaces(l.indent, ShowText(l.text));
  }

  // ----- port numbers

  function Value(s: string): int {
    if s == "" then 0 else Value(s[..|s| - 1]) * 10 + (s[|s| - 1] as int - '0' as int)
  }

  /** A port is written so that it can be read back; so different ports are written differently. */
  lemma {:induction false} DigitsReadBack(n: nat)
    ensures Value(Digits(n)) == n
  {
    if n >= 10 {
      DigitsReadBack(n / 10);
      assert Digits(n)[..|Digits(n)| - 1] == Digits(n / 10);
    } else {
      assert Digits(n)[..0] == "";
    }
  }

  /** Digit j of a number, counted from the lowest. */
  function Digit10(n: nat, j: nat): nat {
    if j == 0 then n % 10 else Digit10(n / 10, j - 1)
  }

  /** The digits come from the highest, and the first is no zero but in zero itself. */
  lemma {:induction false} DigitsAre(n: nat)
    ensures forall i :: 0 <= i < |Digits(n)| ==> Digits(n)[i] as int == 48 + Digit10(n, |Digits(n)| - 1 - i)
    ensures n > 0 ==> Digits(n)[0] != '0'
  {
    if n >= 10 {
      DigitsAre(n / 10);
    }
  }

  // ----- what a line does to the depth

  function Delta(t: Text): int {
    match t
    case Block(_) => 1
    case Proxy(_, open) => if open then 1 else 0
    case Close => -1
    case _ => 0
  }

  lemma ProxyTame(port: nat)
    ensures Tame(PROXY + Digits(port))
  {
    ProxyNameIsTame();
    TameConcat(PROXY, Digits(port));
  }

  lemma ProxyNameIsTame()
    ensures Tame(PROXY)
  {
    assert Tame("reverse_proxy") && Tame(" 127.0.0.1:");
    TameConcat("reverse_proxy", " 127.0.0.1:");
  }

  lemma TameConcat(a: string, b: string)
    requires Tame(a) && Tame(b)
    ensures Tame(a + b)
  {
  }

  lemma ProxyBalance(port: nat, open: bool)
    ensures var shown := ShowText(Proxy(port, open)); Balance(shown) == (if open then 1 else 0) && Dip(shown) == 0
  {
    ProxyTame(port);
    if open {
      OpenBalance(PROXY + Digits(port));
    } else {
      assert ShowText(Proxy(port, open)) == PROXY + Digits(port);
      TameBalance(PROXY + Digits(port));
    }
  }

  lemma TextBalance(t: Text)
    requires Good(Line(1, t)) || t.Blank?
    requires !t.Note?
    ensures Balance(ShowText(t)) == Delta(t)
    ensures Dip(ShowText(t)) == if Delta(t) < 0 then Delta(t) else 0
  {
    match t
    case Blank =>
    case Block(head) => OpenBalance(head);
    case Leaf(text) => TameBalance(text);
    case Secret(text) =>
      TameBalance(text);
      SecretIsBalanced();
      BalanceConcat(text, SECRET);
    case Matcher(name, host) => TameBalance("@" + name + " host " + host);
    case Proxy(port, open) =>
      ProxyBalance(port, open);
    case Close => assert "}"[..0] == "";
  }

  lemma LineDepth(l: Line)
    requires Good(l)
    ensures LineBalance(Show(l)) == Delta(l.text)
    ensures LineDip(Show(l)) == if Delta(l.text) < 0 then Delta(l.text) else 0
  {
    TextStart(l);
    if !l.text.Note? {
      TextBalance(l.text);
      TameBalance(Spaces(l.indent));
      BalanceConcat(Spaces(l.indent), ShowText(l.text));
    }
  }

  // ----- headers

  lemma BlockAddress(head: string)
    requires GoodText(head) && Trimmed(head)
    ensures AddressOf(head + " {") == Some(head)
  {
    var raw := head + " {";
    StripTrims(raw);
    assert raw[..|raw| - 1] == head + " ";
    assert LStrip(head + " ") == head + " ";
    assert (head + " ")[..|head|] == head;
    assert RStrip(head + " ") == RStrip(head);
    RStripIsPrefix(head);
  }

  /** By indentation the header of a site is found on its unindented line, and nowhere else. */
  lemma LineHeader(l: Line)
    requires Good(l)
    ensures HeaderOf(Show(l)) == if l.indent == 0 && l.text.Block? then Some(l.text.head) else None
    ensures l.indent == 0 && !l.text.Block? ==> AddressOf(Show(l)) == None
  {
    if l.indent == 0 {
      assert Show(l) == ShowText(l.text);
      match l.text
      case Blank =>
      case Note(note) => CommentAddress(note);
      case Block(head) => BlockAddress(head);
      case Close => StripTrims("}");
    }
  }

  lemma CommentAddress(note: string)
    ensures AddressOf("# " + note) == None
  {
    var raw := "# " + note;
    LStripIsSuffix(raw);
    assert LStrip(raw) == raw;
    RStripIsPrefix(raw);
    assert Strip(raw) == "" || Strip(raw)[0] == raw[0];
  }

  // ----- routes

  lemma NotProxyStart(s: string, more: string)
    requires NotProxy(s)
    ensures !StartsWith(s + more, PROXY)
  {
    StartsWithIsPrefix(s + more, PROXY);
    var i :| 0 <= i < |s| && i < |PROXY| && s[i] != PROXY[i];
    assert (s + more)[i] == s[i];
  }

  lemma LineProxy(l: Line)
    requires Good(l)
    ensures ProxyPort(Show(l)) == if l.text.Proxy? then Some(Digits(l.text.port)) else None
  {
    TextStart(l);
    var s := ShowText(l.text);
    if l.text.Proxy? {
      var after := Digits(l.text.port) + if l.text.open then " {" else "";
      assert s == PROXY + after;
      StartsWithIsPrefix(s, PROXY);
      assert s[|PROXY|..] == after;
      UpToStops(Digits(l.text.port), ' ', "{");
      assert l.text.open ==> after == Digits(l.text.port) + [' '] + "{";
      assert !l.text.open ==> after == Digits(l.text.port);
    } else {
      StartsWithIsPrefix(s, PROXY);
      assert PROXY[0] == 'r';
      match l.text
      case Block(head) => NotProxyStart(s, ""); assert s + "" == s;
      case Leaf(text) => NotProxyStart(s, ""); assert s + "" == s;
      case Secret(text) => NotProxyStart(text, SECRET);
      case _ =>
    }
  }

  lemma LineMatcher(l: Line)
    requires Good(l)
    ensures MatcherHost(Show(l)) == if l.text.Matcher? then Some(l.text.host) else None
  {
    TextStart(l);
    if l.text.Matcher? {
      var name, host := l.text.name, l.text.host;
      var s := ShowText(l.text);
      assert IsSpace(' ');
      assert s == ("@" + name) + [' '] + ("host " + host);
      UpToStops("@" + name, ' ', "host " + host);
      var rest := s[|name| + 1..];
      assert rest == " host " + host;
      StartsWithIsPrefix(rest, " host ");
      assert rest[6..] == host;
    }
  }

  // ----- line breaks

  lemma LineUnbroken(l: Line)
    requires Good(l)
    ensures forall i :: 0 <= i < |Show(l)| ==> !IsBreak(Show(l)[i])
  {
    if l.text.Secret? {
      SecretNameIsTame();
    } else if l.text.Proxy? {
      ProxyTame(l.text.port);
    }
  }
}
