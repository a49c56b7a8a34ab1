/** Host names and labels (syte/domain_utils.py), as character strings.  Lower case is taken over
    the ASCII letters. */
module Domains {
  /** `str.isspace` of one character, which `str.strip` and the pattern `\s` go by. */
  predicate IsSpace(c: char) {
    var u := c as int;
    9 <= u <= 13 || 28 <= u <= 32 || u == 0x85 || u == 0xA0 || u == 0x1680 || 0x2000 <= u <= 0x200A
    || u == 0x2028 || u == 0x2029 || u == 0x202F || u == 0x205F || u == 0x3000
  }

  function LStrip(s: string): (r: string)
    ensures |r| <= |s|
  {
    if s != [] && IsSpace(s[0]) then LStrip(s[1..]) else s
  }

  function RStrip(s: string): string {
    if s != [] && IsSpace(s[|s| - 1]) then RStrip(s[..|s| - 1]) else s
  }

  function Strip(s: string): string {
    RStrip(LStrip(s))
  }

  predicate Trimmed(s: string) {
    s == [] || (!IsSpace(s[0]) && !IsSpace(s[|s| - 1]))
  }

  lemma {:induction false} LStripIsSuffix(s: string)
    ensures LStrip(s) == s[|s| - |LStrip(s)|..]
    ensures LStrip(s) == [] || !IsSpace(LStrip(s)[0])
    ensures s == [] || !IsSpace(s[0]) <==> LStrip(s) == s
  {
    if s != [] && IsSpace(s[0]) {
      LStripIsSuffix(s[1..]);
    }
  }

  lemma {:induction false} RStripIsPrefix(s: string)
    ensures RStrip(s) <= s
    ensures RStrip(s) == [] || !IsSpace(RStrip(s)[|RStrip(s)| - 1])
    ensures s == [] || !IsSpace(s[|s| - 1]) <==> RStrip(s) == s
  {
    if s != [] && IsSpace(s[|s| - 1]) {
      RStripIsPrefix(s[..|s| - 1]);
    }
  }

  /** Stripping leaves nothing to strip, changes only what has white space around it, and keeps
      only characters that were there. */
  lemma StripTrims(s: string)
    ensures Trimmed(Strip(s))
    ensures Strip(s) == s <==> Trimmed(s)
    ensures |Strip(s)| <= |s| && (!Trimmed(s) ==> |Strip(s)| < |s|)
    ensures forall c :: c in Strip(s) ==> c in s
  {
    LStripIsSuffix(s);
    RStripIsPrefix(LStrip(s));
  }

  function LowerChar(c: char): char {
    if 'A' <= c <= 'Z' then c - 'A' + 'a' else c
  }

  function Lower(s: string): string {
    if s == [] then [] else [LowerChar(s[0])] + Lower(s[1..])
  }

  ghost predicate IsLower(s: string) {
    forall c :: c in s ==> !('A' <= c <= 'Z')
  }

  lemma {:induction false} LowerIsLower(s: string)
    ensures |Lower(s)| == |s| && IsLower(Lower(s))
    ensures IsLower(s) ==> Lower(s) == s
  {
    if s != [] {
      assert s[0] in s && forall c :: c in s[1..] ==> c in s;
      LowerIsLower(s[1..]);
      assert s == [s[0]] + s[1..];
    }
  }

  lemma {:induction false} LowerKeepsSpaces(s: string)
    ensures (forall c :: c in s ==> !IsSpace(c)) ==> forall c :: c in Lower(s) ==> !IsSpace(c)
  {
    if s != [] {
      assert s[0] in s && forall c :: c in s[1..] ==> c in s;
      LowerKeepsSpaces(s[1..]);
    }
  }

  predicate StartsWith(s: string, prefix: string) {
    prefix == [] || (s != [] && s[0] == prefix[0] && StartsWith(s[1..], prefix[1..]))
  }

  lemma {:induction false} StartsWithIsPrefix(s: string, prefix: string)
    ensures StartsWith(s, prefix) <==> prefix <= s
  {
    if prefix != [] && s != [] {
      StartsWithIsPrefix(s[1..], prefix[1..]);
      assert s == [s[0]] + s[1..] && prefix == [prefix[0]] + prefix[1..];
    }
  }

  function RemovePrefix(s: string, prefix: string): string {
    if StartsWith(s, prefix) && |prefix| <= |s| then s[|prefix|..] else s
  }

  const HTTPS := "https://"
  const HTTP := "http://"

  /** `s.split(c)[0]`. */
  function UpTo(s: string, c: char): (r: string)
    ensures |r| <= |s|
  {
    if s == [] || s[0] == c then [] else [s[0]] + UpTo(s[1..], c)
  }

  lemma {:induction false} UpToIsPrefix(s: string, c: char)
    ensures UpTo(s, c) <= s && c !in UpTo(s, c)
    ensures c !in s ==> UpTo(s, c) == s
  {
    if s != [] && s[0] != c {
      UpToIsPrefix(s[1..], c);
      assert s == [s[0]] + s[1..];
    }
  }

  function RStripDots(s: string): string {
    if s != [] && s[|s| - 1] == '.' then RStripDots(s[..|s| - 1]) else s
  }

  lemma {:induction false} RStripDotsIsPrefix(s: string)
    ensures RStripDots(s) <= s
    ensures RStripDots(s) == [] || RStripDots(s)[|RStripDots(s)| - 1] != '.'
  {
    if s != [] && s[|s| - 1] == '.' {
      RStripDotsIsPrefix(s[..|s| - 1]);
    }
  }

  function NormalizeDomain(domain: string): string {
    var d := Lower(Strip(domain));
    var bare := RemovePrefix(RemovePrefix(d, HTTPS), HTTP);
    RStripDots(UpTo(UpTo(bare, '/'), ':'))
  }

  /** A name that normalisation leaves alone, apart from surrounding white space. */
  ghost predicate Bare(s: string) {
    IsLower(s) && '/' !in s && ':' !in s && (s == [] || s[|s| - 1] != '.')
  }

  lemma PrefixOf(r: string, s: string)
    requires r <= s
    ensures forall c :: c in r ==> c in s
    ensures IsLower(s) ==> IsLower(r)
  {
    forall c | c in r
      ensures c in s
    {
      var i :| 0 <= i < |r| && r[i] == c;
      assert s[i] == c;
    }
  }

  lemma RemovedChars(s: string, prefix: string)
    ensures forall c :: c in RemovePrefix(s, prefix) ==> c in s
  {
  }

  lemma TailChars(bare: string)
    ensures var r := RStripDots(UpTo(UpTo(bare, '/'), ':'));
      && (forall c :: c in r ==> c in bare)
      && '/' !in r && ':' !in r && (r == [] || r[|r| - 1] != '.')
  {
    var host := UpTo(bare, '/');
    var name := UpTo(host, ':');
    UpToIsPrefix(bare, '/');
    UpToIsPrefix(host, ':');
    RStripDotsIsPrefix(name);
    PrefixOf(host, bare);
    PrefixOf(name, host);
    PrefixOf(RStripDots(name), name);
  }

  /** The normal form has only characters of the lower-cased text, and is bare. */
  lemma NormalizeIsBare(domain: string)
    ensures Bare(NormalizeDomain(domain))
    ensures forall c :: c in NormalizeDomain(domain) ==> c in Lower(Strip(domain))
  {
    var d := Lower(Strip(domain));
    LowerIsLower(Strip(domain));
    RemovedChars(d, HTTPS);
    RemovedChars(RemovePrefix(d, HTTPS), HTTP);
    TailChars(RemovePrefix(RemovePrefix(d, HTTPS), HTTP));
  }

  lemma NoScheme(s: string, prefix: string, i: nat)
    requires ':' !in s && i < |prefix| && prefix[i] == ':'
    ensures RemovePrefix(s, prefix) == s
  {
    StartsWithIsPrefix(s, prefix);
  }

  lemma BareIsFixed(s: string)
    requires Bare(s) && Trimmed(s)
    ensures NormalizeDomain(s) == s
  {
    StripTrims(s);
    LowerIsLower(s);
    NoScheme(s, HTTPS, 5);
    NoScheme(s, HTTP, 4);
    UpToIsPrefix(s, '/');
    UpToIsPrefix(s, ':');
  }

  lemma NormalizeShrinks(s: string)
    ensures |NormalizeDomain(s)| <= |Strip(s)|
  {
    var d := Lower(Strip(s));
    LowerIsLower(Strip(s));
    var bare := RemovePrefix(RemovePrefix(d, HTTPS), HTTP);
    UpToIsPrefix(bare, '/');
    UpToIsPrefix(UpTo(bare, '/'), ':');
    RStripDotsIsPrefix(UpTo(UpTo(bare, '/'), ':'));
  }

  /** Normalising twice is normalising once, exactly when the first result has no white space
      around it; text with inner white space, like "a /b", is where it can have some. */
  lemma NormalizeIdempotentIff(domain: string)
    ensures NormalizeDomain(NormalizeDomain(domain)) == NormalizeDomain(domain) <==> Trimmed(NormalizeDomain(domain))
  {
    var n := NormalizeDomain(domain);
    NormalizeIsBare(domain);
    BareFixedIff(n);
  }

  lemma BareFixedIff(n: string)
    requires Bare(n)
    ensures NormalizeDomain(n) == n <==> Trimmed(n)
  {
    if Trimmed(n) {
      BareIsFixed(n);
    } else {
      NormalizeShrinks(n);
      StripTrims(n);
    }
  }

  /** Domains that are stored without white space always meet the condition. */
  lemma NoSpaceIsTrimmed(domain: string)
    requires forall c :: c in domain ==> !IsSpace(c)
    ensures Trimmed(NormalizeDomain(domain))
  {
    StripTrims(domain);
    LowerKeepsSpaces(Strip(domain));
    NormalizeIsBare(domain);
    var n := NormalizeDomain(domain);
    assert n != [] ==> n[0] in n && n[|n| - 1] in n;
  }

  // ----- host names that are safe in a Caddyfile

  predicate HostEnd(c: char) {
    'a' <= c <= 'z' || '0' <= c <= '9'
  }

  predicate HostChar(c: char) {
    HostEnd(c) || c == '.' || c == '-'
  }

  /** The pattern [a-z0-9]([a-z0-9.-]{0,251}[a-z0-9])? over a whole text. */
  predicate IsHostname(s: string) {
    && 0 < |s| <= 253
    && HostEnd(s[0]) && HostEnd(s[|s| - 1])
    && forall i :: 0 <= i < |s| ==> HostChar(s[i])
  }

  predicate IsSafeCaddyHostname(hostname: string) {
    IsHostname(NormalizeDomain(hostname))
  }

  lemma HostnameIsFixed(s: string)
    requires IsHostname(s)
    ensures NormalizeDomain(s) == s
  {
    BareIsFixed(s);
  }

  /** The check normalises once more than its callers do.  A normalised name that passes it is
      itself a host name exactly when it has no white space around it. */
  lemma SafeIsHostnameIff(n: string)
    requires Bare(n) && IsSafeCaddyHostname(n)
    ensures IsHostname(n) <==> Trimmed(n)
  {
    if Trimmed(n) {
      BareIsFixed(n);
    }
  }

  // ----- labels in comments

  /** Line breaks become spaces, braces become parentheses. */
  function LabelChar(c: char): char {
    if c == '\r' || c == '\n' then ' ' else if c == '{' then '(' else if c == '}' then ')' else c
  }

  /** `re.sub(r"\s+", " ", text)`. */
  function Squeeze(s: string): string
    decreases |s|
  {
    if s == [] then []
    else if IsSpace(s[0]) then " " + Squeeze(LStrip(s[1..]))
    else [s[0]] + Squeeze(s[1..])
  }

  lemma {:induction false} SqueezeChars(s: string)
    ensures forall c :: c in Squeeze(s) ==> c == ' ' || (c in s && !IsSpace(c))
    decreases |s|
  {
    if s != [] {
      assert forall c :: c in s[1..] ==> c in s;
      if IsSpace(s[0]) {
        LStripIsSuffix(s[1..]);
        SqueezeChars(LStrip(s[1..]));
      } else {
        SqueezeChars(s[1..]);
      }
    }
  }

  function LabelChars(s: string): (r: string)
    ensures '{' !in r && '}' !in r
  {
    if s == [] then [] else [LabelChar(s[0])] + LabelChars(s[1..])
  }

  /** An empty name stands for a missing one. */
  function SanitizeLabel(name: string): string {
    var text := Strip(Squeeze(LabelChars(if name == "" then "project" else name)));
    var cut := if |text| <= 120 then text else text[..120];
    if cut == "" then "project" else cut
  }

  /** A text that can stand in a line of its own: no braces, and no white space but plain spaces. */
  ghost predicate Plain(s: string) {
    forall c :: c in s ==> c != '{' && c != '}' && (c == ' ' || !IsSpace(c))
  }

  /** No brace and no line break survives in a label, whatever it was. */
  lemma LabelIsPlain(name: string)
    ensures SanitizeLabel(name) != "" && Plain(SanitizeLabel(name))
  {
    var squeezed := Squeeze(LabelChars(if name == "" then "project" else name));
    SqueezeChars(LabelChars(if name == "" then "project" else name));
    StripTrims(squeezed);
    assert Plain(squeezed);
    var text := Strip(squeezed);
    assert Plain(text);
    if |text| > 120 {
      PrefixOf(text[..120], text);
    }
    assert Plain("project") by {
      assert forall c :: c in "project" ==> 'a' <= c <= 'z';
    }
  }
}
