/** The lines of a generated Caddyfile: what the generator writes, and the two ways of reading it.

    A line is kept as its indentation and the directive on it; `Show` is the text that is written.
    The readers see nothing but that text.
  */
module CaddyLines {
  import opened Wrappers
  import opened Domains

  datatype Text =
    | Blank
    | Note(note: string)                       // # note
    | Block(head: string)                      // head {
    | Leaf(text: string)
    | Secret(text: string)                     // text {env.CLOUDFLARE_API_TOKEN}
    | Matcher(name: string, host: string)      // @name host host
    | Proxy(port: nat, open: bool)             // reverse_proxy 127.0.0.1:port, perhaps with a block
    | Close                                    // }

  datatype Line = Line(indent: nat, text: Text)

  function Spaces(n: nat): (s: string)
    ensures |s| == n && forall i :: 0 <= i < n ==> s[i] == ' '
  {
    if n == 0 then "" else " " + Spaces(n - 1)
  }

  function Digits(n: nat): (s: string)
    ensures s != "" && forall i :: 0 <= i < |s| ==> '0' <= s[i] <= '9'
  {
    if n < 10 then ['0' + n as char] else Digits(n / 10) + ['0' + (n % 10) as char]
  }

  // Long texts are put together from short ones here and in the generator: a fact about every character
  // of a text takes the verifier one case a character.
  const PROXY := "reverse_proxy" + " 127.0.0.1:"
  const SECRET_NAME := "env.CLOUDFLARE" + "_API_TOKEN"
  const SECRET := " {" + SECRET_NAME + "}"

  function ShowText(t: Text): string {
    match t
    case Blank => ""
    case Note(note) => "# " + note
    case Block(head) => head + " {"
    case Leaf(text) => text
    case Secret(text) => text + SECRET
    case Matcher(name, host) => "@" + name + " host " + host
    case Proxy(port, open) => PROXY + Digits(port) + if open then " {" else ""
    case Close => "}"
  }

  function Show(l: Line): string {
    Spaces(l.indent) + ShowText(l.text)
  }

  // ----- texts that can stand in a line

  /** The characters that `str.splitlines` breaks a text at. */
  predicate IsBreak(c: char) {
    var u := c as int;
    10 <= u <= 13 || 28 <= u <= 30 || u == 0x85 || u == 0x2028 || u == 0x2029
  }

  predicate TameChar(c: char) {
    c != '{' && c != '}' && !IsBreak(c)
  }

  ghost predicate Tame(s: string) {
    forall i :: 0 <= i < |s| ==> TameChar(s[i])
  }

  /** A directive's text: tame, and neither indented nor a comment nor a matcher. */
  ghost predicate GoodText(s: string) {
    s != "" && Tame(s) && !IsSpace(s[0]) && s[0] != '#' && s[0] != '@'
  }

  /** The text is not that of a reverse_proxy: they differ somewhere. */
  ghost predicate NotProxy(s: string) {
    exists i :: 0 <= i < |s| && i < |PROXY| && s[i] != PROXY[i]
  }

  predicate NoSpaces(s: string) {
    forall i :: 0 <= i < |s| ==> !IsSpace(s[i])
  }

  ghost predicate Good(l: Line) {
    match l.text
    case Blank => l.indent == 0
    case Note(note) => Tame(note)
    case Block(head) => GoodText(head) && Trimmed(head) && NotProxy(head + " {")
    case Leaf(text) => GoodText(text) && NotProxy(text) && l.indent > 0
    case Secret(text) => GoodText(text) && NotProxy(text) && l.indent > 0
    case Matcher(name, host) => Tame(name) && NoSpaces(name) && Tame(host) && l.indent > 0
    case Proxy(_, _) => l.indent > 0
    case Close => true
  }

  // ----- reading by indentation

  /** `parse_host_blocks` on one line: an unindented line that ends with an open brace. */
  function HeaderOf(raw: string): Option<string> {
    if raw == "" || IsSpace(raw[0]) then None else AddressOf(raw)
  }

  function AddressOf(raw: string): Option<string> {
    var line := Strip(raw);
    if line == "" || line[|line| - 1] != '{' || line[0] == '#' then None
    else
      var address := Strip(line[..|line| - 1]);
      if address == "" then None else Some(address)
  }

  function HostBlocks(raws: seq<string>): seq<string> {
    if raws == [] then []
    else HostBlocks(raws[..|raws| - 1]) + match HeaderOf(raws[|raws| - 1]) case None => [] case Some(a) => [a]
  }

  // ----- reading by brace depth

  predicate IsComment(raw: string) {
    var line := LStrip(raw);
    line != "" && line[0] == '#'
  }

  /** Open minus closing braces, and the lowest point that the count reaches on the way. */
  function Balance(s: string): int {
    if s == "" then 0 else Balance(s[..|s| - 1]) + Step(s[|s| - 1])
  }

  function Dip(s: string): int {
    if s == "" then 0
    else if Balance(s) < Dip(s[..|s| - 1]) then Balance(s) else Dip(s[..|s| - 1])
  }

  function Step(c: char): int {
    if c == '{' then 1 else if c == '}' then -1 else 0
  }

  function LineBalance(raw: string): int {
    if IsComment(raw) then 0 else Balance(raw)
  }

  function LineDip(raw: string): int {
    if IsComment(raw) then 0 else Dip(raw)
  }

  /** The depth after the lines, starting from depth 0. */
  function Depth(raws: seq<string>): int {
    if raws == [] then 0 else Depth(raws[..|raws| - 1]) + LineBalance(raws[|raws| - 1])
  }

  /** The depth is never below zero, not even within a line. */
  ghost predicate NeverNegative(raws: seq<string>) {
    raws == [] || (NeverNegative(raws[..|raws| - 1]) && Depth(raws[..|raws| - 1]) + LineDip(raws[|raws| - 1]) >= 0)
  }

  /** The site addresses by brace depth: the headers of the blocks opened at depth 0, however they
      are indented. */
  function Sites(raws: seq<string>): seq<string> {
    if raws == [] then []
    else
      var before, raw := raws[..|raws| - 1], raws[|raws| - 1];
      Sites(before) + match AddressOf(raw) case None => [] case Some(a) => if Depth(before) == 0 then [a] else []
  }

  // ----- reading routes

  /** The port that a reverse_proxy line hands over to, as written. */
  function ProxyPort(raw: string): Option<string> {
    var line := LStrip(raw);
    if StartsWith(line, PROXY) && |PROXY| <= |line| then Some(UpTo(line[|PROXY|..], ' ')) else None
  }

  /** The host of a host matcher line. */
  function MatcherHost(raw: string): Option<string> {
    var line := LStrip(raw);
    if line == "" || line[0] != '@' then None
    else
      var rest := line[|UpTo(line, ' ')|..];
      if StartsWith(rest, " host ") && 6 <= |rest| then Some(rest[6..]) else None
  }

  /** The host that a line is about, given the host before it. */
  function HostAfter(current: string, raw: string): string {
    match HeaderOf(raw)
    case Some(address) => address
    case None => (match MatcherHost(raw) case Some(host) => host case None => current)
  }

  function CurrentHost(raws: seq<string>): string {
    if raws == [] then "" else HostAfter(CurrentHost(raws[..|raws| - 1]), raws[|raws| - 1])
  }

  /** Every reverse_proxy with the host it serves: the last matcher or site header above it. */
  function Routed(raws: seq<string>): seq<(string, string)> {
    if raws == [] then []
    else
      var before, raw := raws[..|raws| - 1], raws[|raws| - 1];
      Routed(before) + match ProxyPort(raw) case None => [] case Some(port) => [(CurrentHost(before), port)]
  }
}
