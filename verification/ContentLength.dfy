/** Content-Length framing on standard input and output (syte/mcp_stdio.py). */
module ContentLength {
  import opened Wrappers
  import opened ByteStream

  const CR: Byte := 13
  const LF: Byte := 10
  const SPACE: Byte := 32
  const ZERO: Byte := 48
  const MINUS: Byte := 45
  const PLUS: Byte := 43

  /** "Content-Length:" in ASCII. */
  const CONTENT_LENGTH: seq<Byte> := [67, 111, 110, 116, 101, 110, 116, 45, 76, 101, 110, 103, 116, 104, 58]

  predicate IsSpace(b: Byte) {
    9 <= b <= 13 || 28 <= b <= 32
  }

  // ----- decimal numbers

  function Digits(n: nat): (ds: seq<Byte>)
    ensures |ds| > 0
    ensures forall i :: 0 <= i < |ds| ==> 48 <= ds[i] <= 57
  {
    if n < 10 then [ZERO + n] else Digits(n / 10) + [ZERO + n % 10]
  }

  function ParseDigits(ds: seq<Byte>): Option<nat> {
    if ds == [] then Some(0)
    else
      var front, last := ParseDigits(ds[..|ds| - 1]), ds[|ds| - 1];
      if front.Some? && 48 <= last <= 57 then Some(front.value * 10 + (last - 48)) else None
  }

  lemma {:induction false} DigitsRoundTrip(n: nat)
    ensures ParseDigits(Digits(n)) == Some(n)
  {
    if n >= 10 {
      DigitsRoundTrip(n / 10);
      assert Digits(n)[..|Digits(n)| - 1] == Digits(n / 10);
    } else {
      assert ParseDigits([ZERO + n][..0]) == Some(0);
    }
  }

  function StripLeft(bs: seq<Byte>): (r: seq<Byte>)
    ensures |r| <= |bs|
    ensures bs != [] && !IsSpace(bs[0]) ==> r == bs
  {
    if bs != [] && IsSpace(bs[0]) then StripLeft(bs[1..]) else bs
  }

  function StripRight(bs: seq<Byte>): (r: seq<Byte>)
    ensures bs != [] && !IsSpace(bs[|bs| - 1]) ==> r == bs
  {
    if bs != [] && IsSpace(bs[|bs| - 1]) then StripRight(bs[..|bs| - 1]) else bs
  }

  function Strip(bs: seq<Byte>): seq<Byte> {
    StripRight(StripLeft(bs))
  }

  /** `int(text)` of an ASCII text: spaces around it, an optional sign, and digits. */
  function ParseInt(text: seq<Byte>): Option<int> {
    var t := Strip(text);
    var signed := t != [] && (t[0] == MINUS || t[0] == PLUS);
    var ds := if signed then t[1..] else t;
    if ds == [] || ParseDigits(ds).None? then None
    else
      var n: int := ParseDigits(ds).value;
      Some(if signed && t[0] == MINUS then -n else n)
  }

  lemma ParsePaddedDigits(n: nat)
    ensures ParseInt([SPACE] + Digits(n) + [CR, LF]) == Some(n)
  {
    var ds := Digits(n);
    var padded := [SPACE] + ds + [CR, LF];
    assert padded[1..] == ds + [CR, LF];
    assert StripLeft(padded) == ds + [CR, LF];
    assert (ds + [CR, LF])[..|ds| + 1] == ds + [CR];
    assert StripRight(ds + [CR, LF]) == StripRight(ds + [CR]);
    assert (ds + [CR])[..|ds|] == ds;
    assert StripRight(ds + [CR]) == StripRight(ds);
    DigitsRoundTrip(n);
  }

  // ----- messages on the wire

  /** A header line: name, space, number, line end. */
  function Header(name: seq<Byte>, ds: seq<Byte>): seq<Byte> {
    name + ([SPACE] + ds + [CR, LF])
  }

  function Written(payload: seq<Byte>): seq<Byte> {
    Header(CONTENT_LENGTH, Digits(|payload|)) + ([CR, LF] + payload)
  }

  function WrittenAll(messages: seq<seq<Byte>>): seq<Byte> {
    if messages == [] then [] else Written(messages[0]) + WrittenAll(messages[1..])
  }

  /** `Payload` is handed to the JSON parser after a header, `Line` without one.  `Spins` stands for
      the loop that waits for an empty header line forever once the input has ended. */
  datatype Outcome = EndOfInput | Payload(body: seq<Byte>) | Line(text: seq<Byte>) | BadHeader | Spins

  /** Where the first line ends, its newline included. */
  function LineEnd(bs: seq<Byte>): (k: nat)
    ensures k <= |bs| && (bs != [] ==> k > 0)
    ensures forall i :: 0 <= i < k - 1 ==> bs[i] != LF
  {
    if bs == [] then 0 else if bs[0] == LF then 1 else 1 + LineEnd(bs[1..])
  }

  lemma {:induction false} LineEndAt(line: seq<Byte>, rest: seq<Byte>)
    requires forall i :: 0 <= i < |line| ==> line[i] != LF
    ensures LineEnd(line + [LF] + rest) == |line| + 1
  {
    if line == [] {
      assert line + [LF] + rest == [LF] + rest;
    } else {
      assert (line + [LF] + rest)[1..] == line[1..] + [LF] + rest;
      LineEndAt(line[1..], rest);
    }
  }

  /** Reading two bytes at a time until they are a line end; None when they never are.  So only line
      ends at even offsets are seen. */
  function AfterSeparator(bs: seq<Byte>): (r: Option<seq<Byte>>)
    ensures r.Some? ==> |r.value| < |bs|
  {
    if |bs| < 2 then None
    else if bs[..2] == [CR, LF] then Some(bs[2..])
    else AfterSeparator(bs[2..])
  }

  predicate Ascii(bs: seq<Byte>) {
    forall i :: 0 <= i < |bs| ==> bs[i] < 128
  }

  function HeaderLength(header: seq<Byte>): Option<int> {
    if CONTENT_LENGTH <= header && Ascii(header)
    then ParseInt(header[|CONTENT_LENGTH|..])
    else None
  }

  /** `_read_message` as a function of the bytes: the outcome and what is left of the input.
      A negative length reads everything. */
  function ReadFrom(bs: seq<Byte>): (r: (Outcome, seq<Byte>))
    ensures !r.0.EndOfInput? ==> |r.1| < |bs|
    decreases |bs|
  {
    if bs == [] then (EndOfInput, []) else
    var header, after := bs[..LineEnd(bs)], bs[LineEnd(bs)..];
    if !(CONTENT_LENGTH <= header) then
      if Strip(header) == [] then ReadFrom(after) else (Line(Strip(header)), after)
    else
      match HeaderLength(header)
      case None => (BadHeader, after)
      case Some(length) =>
        match AfterSeparator(after)
        case None => (Spins, [])
        case Some(rest) =>
          var k := if 0 <= length <= |rest| then length else |rest|;
          (Payload(rest[..k]), rest[k..])
  }

  /** Reading until the input ends. */
  function ReadAll(bs: seq<Byte>): seq<Outcome>
    decreases |bs|
  {
    var (outcome, rest) := ReadFrom(bs);
    if outcome.EndOfInput? then [] else [outcome] + ReadAll(rest)
  }

  lemma NameSplits(name: seq<Byte>, value: seq<Byte>)
    ensures name <= name + value && (name + value)[|name|..] == value
  {
  }

  lemma HeaderReadBack(n: nat)
    ensures CONTENT_LENGTH <= Header(CONTENT_LENGTH, Digits(n))
    ensures HeaderLength(Header(CONTENT_LENGTH, Digits(n))) == Some(n)
  {
    NameSplits(CONTENT_LENGTH, [SPACE] + Digits(n) + [CR, LF]);
    ParsePaddedDigits(n);
  }

  lemma LineSplits(line: seq<Byte>, after: seq<Byte>)
    requires forall i :: 0 <= i < |line| ==> line[i] != LF
    ensures var bs := line + [LF] + after; bs[..LineEnd(bs)] == line + [LF] && bs[LineEnd(bs)..] == after
  {
    LineEndAt(line, after);
  }

  lemma SplitHeader(name: seq<Byte>, ds: seq<Byte>, after: seq<Byte>)
    requires forall i :: 0 <= i < |name| ==> name[i] != LF
    requires forall i :: 0 <= i < |ds| ==> ds[i] != LF
    ensures var bs := Header(name, ds) + after;
      bs[..LineEnd(bs)] == Header(name, ds) && bs[LineEnd(bs)..] == after
  {
    var line := name + ([SPACE] + ds + [CR]);
    assert Header(name, ds) == line + [LF];
    LineSplits(line, after);
  }

  lemma ReadWritten(payload: seq<Byte>, rest: seq<Byte>)
    ensures ReadFrom(Written(payload) + rest) == (Payload(payload), rest)
  {
    var bs := Written(payload) + rest;
    assert bs == Header(CONTENT_LENGTH, Digits(|payload|)) + ([CR, LF] + (payload + rest));
    SplitHeader(CONTENT_LENGTH, Digits(|payload|), [CR, LF] + (payload + rest));
    HeaderReadBack(|payload|);
    var after := [CR, LF] + (payload + rest);
    assert after[..2] == [CR, LF] && after[2..] == payload + rest;
    assert AfterSeparator(after) == Some(payload + rest);
    assert (payload + rest)[..|payload|] == payload && (payload + rest)[|payload|..] == rest;
  }

  function Payloads(messages: seq<seq<Byte>>): seq<Outcome> {
    if messages == [] then [] else [Payload(messages[0])] + Payloads(messages[1..])
  }

  /** Reading the concatenation of any list of written messages gives exactly that list, and then
      the end of the input. */
  lemma {:induction false} RoundTrip(messages: seq<seq<Byte>>)
    ensures ReadAll(WrittenAll(messages)) == Payloads(messages)
  {
    if messages != [] {
      ReadWritten(messages[0], WrittenAll(messages[1..]));
      RoundTrip(messages[1..]);
    }
  }

  // ----- where a message ends its headers

  predicate LineEndsAt(bs: seq<Byte>, k: int) {
    0 <= k && k + 2 <= |bs| && bs[k] == CR && bs[k + 1] == LF
  }

  predicate EvenLineEnd(bs: seq<Byte>, k: int) {
    k % 2 == 0 && LineEndsAt(bs, k)
  }

  /** The first line end at an even offset. */
  ghost predicate SeparatorAt(bs: seq<Byte>, k: int) {
    EvenLineEnd(bs, k) && forall j :: 0 <= j < k ==> !EvenLineEnd(bs, j)
  }

  lemma {:induction false} SeparatorFound(bs: seq<Byte>, k: nat)
    requires SeparatorAt(bs, k)
    ensures AfterSeparator(bs) == Some(bs[k + 2..])
  {
    if k > 0 {
      assert !EvenLineEnd(bs, 0);
      forall j | 0 <= j < k - 2
        ensures !EvenLineEnd(bs[2..], j)
      {
        assert !EvenLineEnd(bs, j + 2);
      }
      SeparatorFound(bs[2..], k - 2);
      assert bs[2..][k..] == bs[k + 2..];
    }
  }

  lemma {:induction false} SeparatorIsSomewhere(bs: seq<Byte>) returns (k: nat)
    requires AfterSeparator(bs).Some?
    ensures SeparatorAt(bs, k)
  {
    if EvenLineEnd(bs, 0) {
      return 0;
    }
    var j := SeparatorIsSomewhere(bs[2..]);
    k := j + 2;
    forall i | 0 <= i < k
      ensures !EvenLineEnd(bs, i)
    {
      assert i >= 2 ==> !EvenLineEnd(bs[2..], i - 2);
    }
  }

  lemma {:induction false} EvenLineEndIsSeen(bs: seq<Byte>, k: nat)
    requires EvenLineEnd(bs, k)
    ensures AfterSeparator(bs).Some?
  {
    if k > 0 {
      EvenLineEndIsSeen(bs[2..], k - 2);
    }
  }

  /** The input starts with a header line that states a length. */
  predicate GoodHeader(bs: seq<Byte>) {
    bs != [] && HeaderLength(bs[..LineEnd(bs)]).Some?
  }

  ghost predicate HasEvenLineEnd(bs: seq<Byte>) {
    exists k :: EvenLineEnd(bs, k)
  }

  lemma SeparatorIff(bs: seq<Byte>)
    ensures AfterSeparator(bs).Some? <==> HasEvenLineEnd(bs)
  {
    if AfterSeparator(bs).Some? {
      var k := SeparatorIsSomewhere(bs);
      assert EvenLineEnd(bs, k);
    }
    if HasEvenLineEnd(bs) {
      var k :| EvenLineEnd(bs, k);
      EvenLineEndIsSeen(bs, k);
    }
  }

  /** After a good header the read returns exactly when some line end lies at an even offset behind
      it; otherwise it waits forever. */
  lemma ReturnsIff(bs: seq<Byte>)
    requires GoodHeader(bs)
    ensures ReadFrom(bs).0.Spins? <==> !HasEvenLineEnd(bs[LineEnd(bs)..])
  {
    SeparatorIff(bs[LineEnd(bs)..]);
  }

  // ----- messages with further header lines

  /** A message with more bytes between its first header line and the empty line. */
  function WrittenWith(payload: seq<Byte>, more: seq<Byte>): seq<Byte> {
    Header(CONTENT_LENGTH, Digits(|payload|)) + (more + ([CR, LF] + payload))
  }

  /** The empty line is the first line end that is seen. */
  ghost predicate Aligned(more: seq<Byte>) {
    |more| % 2 == 0 && forall j :: 0 <= j < |more| ==> !EvenLineEnd(more, j)
  }

  lemma ReadWith(payload: seq<Byte>, more: seq<Byte>, rest: seq<Byte>)
    ensures var after := more + ([CR, LF] + (payload + rest));
      var bs := WrittenWith(payload, more) + rest;
      && GoodHeader(bs) && bs[LineEnd(bs)..] == after
      && ReadFrom(bs) == match AfterSeparator(after)
                         case None => (Spins, [])
                         case Some(r) =>
                           var k := if |payload| <= |r| then |payload| else |r|;
                           (Payload(r[..k]), r[k..])
  {
    var after := more + ([CR, LF] + (payload + rest));
    assert WrittenWith(payload, more) + rest == Header(CONTENT_LENGTH, Digits(|payload|)) + after;
    SplitHeader(CONTENT_LENGTH, Digits(|payload|), after);
    HeaderReadBack(|payload|);
  }

  lemma AlignedReadsBack(payload: seq<Byte>, more: seq<Byte>, rest: seq<Byte>)
    requires Aligned(more)
    ensures ReadFrom(WrittenWith(payload, more) + rest) == (Payload(payload), rest)
  {
    var after := more + ([CR, LF] + (payload + rest));
    ReadWith(payload, more, rest);
    AlignedSeparator(more, payload + rest);
    Front(payload, rest);
  }

  lemma Front(front: seq<Byte>, back: seq<Byte>)
    ensures (front + back)[..|front|] == front && (front + back)[|front|..] == back
  {
  }

  /** If the first line end that is seen is the empty line, nothing before it is seen. */
  lemma SeparatorAligns(more: seq<Byte>, tail: seq<Byte>)
    requires SeparatorAt(more + tail, |more|)
    ensures Aligned(more)
  {
    forall j | 0 <= j < |more|
      ensures !EvenLineEnd(more, j)
    {
      assert !EvenLineEnd(more + tail, j);
    }
  }

  lemma ReadBackIsAligned(payload: seq<Byte>, more: seq<Byte>, rest: seq<Byte>)
    requires ReadFrom(WrittenWith(payload, more) + rest) == (Payload(payload), rest)
    ensures Aligned(more)
  {
    var tail := [CR, LF] + (payload + rest);
    ReadWith(payload, more, rest);
    var k := SeparatorIsSomewhere(more + tail);
    SeparatorFound(more + tail, k);
    var r := (more + tail)[k + 2..];
    assert |r| == |payload| + |rest|;
    SeparatorAligns(more, tail);
  }

  /** Such a message is read back, and what follows it is left, exactly when it is aligned. */
  lemma ReadBackIff(payload: seq<Byte>, more: seq<Byte>, rest: seq<Byte>)
    ensures ReadFrom(WrittenWith(payload, more) + rest) == (Payload(payload), rest) <==> Aligned(more)
  {
    if Aligned(more) {
      AlignedReadsBack(payload, more, rest);
    }
    if ReadFrom(WrittenWith(payload, more) + rest) == (Payload(payload), rest) {
      ReadBackIsAligned(payload, more, rest);
    }
  }

  lemma AlignedSeparator(more: seq<Byte>, tail: seq<Byte>)
    requires Aligned(more)
    ensures AfterSeparator(more + ([CR, LF] + tail)) == Some(tail)
  {
    var after := more + ([CR, LF] + tail);
    forall j | 0 <= j < |more|
      ensures !EvenLineEnd(after, j)
    {
      assert !EvenLineEnd(more, j);
    }
    SeparatorFound(after, |more|);
    assert after[|more| + 2..] == tail;
  }

  /** Further header lines: whatever they are, the last of them has its line end. */
  ghost predicate HeaderLines(more: seq<Byte>) {
    more == [] || LineEndsAt(more, |more| - 2)
  }

  /** So a message is read back exactly when it has no further header line: with an even number of
      bytes in them, the line end of one of them is taken for the empty line, and with an odd number
      the empty line is not seen. */
  lemma FurtherHeadersIff(payload: seq<Byte>, more: seq<Byte>, rest: seq<Byte>)
    requires HeaderLines(more)
    ensures ReadFrom(WrittenWith(payload, more) + rest) == (Payload(payload), rest) <==> more == []
  {
    ReadBackIff(payload, more, rest);
    if more != [] && |more| % 2 == 0 {
      assert EvenLineEnd(more, |more| - 2);
    }
  }

  lemma LineIsAligned(text: seq<Byte>)
    requires |text| % 2 == 0 && CR !in text
    ensures Aligned(text)
  {
    forall j | 0 <= j < |text|
      ensures !EvenLineEnd(text, j)
    {
      assert text[j] in text;
    }
  }

  /** What is read when the first line end that is seen is `tail` away from the message's end. */
  lemma ReadFromSeparator(payload: seq<Byte>, more: seq<Byte>, rest: seq<Byte>, tail: seq<Byte>)
    requires AfterSeparator(more + ([CR, LF] + (payload + rest))) == Some(tail) && |tail| >= |payload|
    ensures ReadFrom(WrittenWith(payload, more) + rest) == (Payload(tail[..|payload|]), tail[|payload|..])
  {
    ReadWith(payload, more, rest);
  }

  lemma Regroup(a: seq<Byte>, b: seq<Byte>, c: seq<Byte>)
    ensures (a + b) + c == a + (b + c)
  {
  }

  lemma LineIsSeen(text: seq<Byte>, read: seq<Byte>)
    requires |text| % 2 == 0 && CR !in text
    ensures AfterSeparator((text + [CR, LF]) + read) == Some(read)
  {
    LineIsAligned(text);
    AlignedSeparator(text, read);
    Regroup(text, [CR, LF], read);
  }

  /** One further line of even length: its own line end is taken for the empty line, so the body
      starts with the real one and loses its own last two bytes. */
  lemma EvenLineShiftsBody(text: seq<Byte>, payload: seq<Byte>, rest: seq<Byte>)
    requires |text| % 2 == 0 && CR !in text
    ensures var read := [CR, LF] + (payload + rest);
      ReadFrom(WrittenWith(payload, text + [CR, LF]) + rest) == (Payload(read[..|payload|]), read[|payload|..])
  {
    LineIsSeen(text, [CR, LF] + (payload + rest));
    ReadFromSeparator(payload, text + [CR, LF], rest, [CR, LF] + (payload + rest));
  }

  lemma NoEvenLineEnd(text: seq<Byte>, payload: seq<Byte>, k: int)
    requires |text| % 2 == 1 && CR !in text && CR !in payload
    ensures !EvenLineEnd(text + ([CR, LF, CR, LF] + payload), k)
  {
    var after := text + ([CR, LF, CR, LF] + payload);
    if 0 <= k < |text| {
      assert after[k] == text[k] && text[k] in text;
    } else if |text| + 4 <= k < |after| {
      assert after[k] == payload[k - |text| - 4] && payload[k - |text| - 4] in payload;
    }
  }

  lemma OddLineHidesEnd(text: seq<Byte>, payload: seq<Byte>)
    requires |text| % 2 == 1 && CR !in text && CR !in payload
    ensures AfterSeparator(text + ([CR, LF, CR, LF] + payload)).None?
  {
    var after := text + ([CR, LF, CR, LF] + payload);
    if AfterSeparator(after).Some? {
      var k := SeparatorIsSomewhere(after);
      NoEvenLineEnd(text, payload, k);
    }
  }

  lemma RegroupLine(text: seq<Byte>, payload: seq<Byte>)
    ensures (text + [CR, LF]) + ([CR, LF] + (payload + [])) == text + ([CR, LF, CR, LF] + payload)
  {
  }

  /** One further line of odd length, and no carriage return in the message: nothing more is read. */
  lemma OddLineSpins(text: seq<Byte>, payload: seq<Byte>)
    requires |text| % 2 == 1 && CR !in text && CR !in payload
    ensures ReadFrom(WrittenWith(payload, text + [CR, LF])) == (Spins, [])
  {
    ReadWith(payload, text + [CR, LF], []);
    assert WrittenWith(payload, text + [CR, LF]) + [] == WrittenWith(payload, text + [CR, LF]);
    RegroupLine(text, payload);
    OddLineHidesEnd(text, payload);
  }

  function Bytes(s: string): (bs: seq<Byte>)
    requires forall i :: 0 <= i < |s| ==> s[i] as int < 128
    ensures |bs| == |s|
  {
    seq(|s|, i requires 0 <= i < |s| => s[i] as int)
  }

  const TYPE_NAME := "Content-Type: application/"
  const TYPE_KIND := "vscode-jsonrpc; "
  const TYPE_CHARSET := "charset=utf-8"

  ghost predicate NoReturn(s: string) {
    forall i :: 0 <= i < |s| ==> s[i] as int < 128 && s[i] != '\r'
  }

  lemma TypeHasNoReturn()
    ensures NoReturn(TYPE_NAME) && NoReturn(TYPE_KIND) && NoReturn(TYPE_CHARSET)
    ensures |TYPE_NAME| + |TYPE_KIND| + |TYPE_CHARSET| == 55
  {
  }

  lemma JoinedHasNoReturn(a: string, b: string)
    requires NoReturn(a) && NoReturn(b)
    ensures NoReturn(a + b)
  {
  }

  /** The usual second header line has an odd length: a short message with it is never returned. */
  lemma ContentTypeSpins()
    ensures NoReturn(TYPE_NAME + TYPE_KIND + TYPE_CHARSET)
    ensures ReadFrom(WrittenWith([104, 105], Bytes(TYPE_NAME + TYPE_KIND + TYPE_CHARSET) + [CR, LF])) == (Spins, [])
  {
    TypeHasNoReturn();
    JoinedHasNoReturn(TYPE_NAME, TYPE_KIND);
    JoinedHasNoReturn(TYPE_NAME + TYPE_KIND, TYPE_CHARSET);
    OddLineSpins(Bytes(TYPE_NAME + TYPE_KIND + TYPE_CHARSET), [104, 105]);
  }

  // ----- the bytes of a message, one by one

  /** Decimal digit j of a number, from the lowest. */
  function Digit10(n: nat, j: nat): nat {
    if j == 0 then n % 10 else Digit10(n / 10, j - 1)
  }

  /** The digits come from the highest, and the first is no zero but in zero itself. */
  lemma {:induction false} DigitsAre(n: nat)
    ensures forall i :: 0 <= i < |Digits(n)| ==> Digits(n)[i] == 48 + Digit10(n, |Digits(n)| - 1 - i)
    ensures n > 0 ==> Digits(n)[0] != 48
  {
    if n >= 10 {
      DigitsAre(n / 10);
    }
  }

  const NAME := "Content-Length:"

  lemma NameIs()
    ensures forall i :: 0 <= i < |NAME| ==> NAME[i] as int < 128
    ensures CONTENT_LENGTH == Bytes(NAME)
  {
  }

  /** What is written: the name, a space, the decimal length, an empty line, the payload. */
  lemma WrittenIs(payload: seq<Byte>)
    ensures Written(payload) == CONTENT_LENGTH + [32] + Digits(|payload|) + [13, 10, 13, 10] + payload
  {
    Flattened(CONTENT_LENGTH, Digits(|payload|), payload);
  }

  lemma Flattened(name: seq<Byte>, ds: seq<Byte>, payload: seq<Byte>)
    ensures Header(name, ds) + ([CR, LF] + payload) == name + [32] + ds + [13, 10, 13, 10] + payload
  {
    assert [CR, LF] + [CR, LF] == [13, 10, 13, 10];
    Regroup(name, [SPACE] + ds + [CR, LF], [CR, LF] + payload);
    Regroup([SPACE] + ds, [CR, LF], [CR, LF] + payload);
    Regroup([CR, LF], [CR, LF], payload);
    Regroup([SPACE], ds, [13, 10, 13, 10] + payload);
    Regroup(name, [SPACE], ds + ([13, 10, 13, 10] + payload));
    Regroup(name + [32], ds, [13, 10, 13, 10] + payload);
    Regroup(name + [32] + ds, [13, 10, 13, 10], payload);
  }

  /** With a good header and a line end at an even offset, a length that is not negative takes that many
      bytes, or all there are, and a negative one takes everything. */
  lemma ReadTakes(bs: seq<Byte>, length: int, rest: seq<Byte>)
    requires GoodHeader(bs) && HeaderLength(bs[..LineEnd(bs)]) == Some(length)
    requires AfterSeparator(bs[LineEnd(bs)..]) == Some(rest)
    ensures 0 <= length <= |rest| ==> ReadFrom(bs) == (Payload(rest[..length]), rest[length..])
    ensures length < 0 || length > |rest| ==> ReadFrom(bs) == (Payload(rest), [])
  {
    assert rest[..|rest|] == rest && rest[|rest|..] == [];
  }

  /** Empty lines before a message are passed over. */
  lemma EmptyLinesSkipped(bs: seq<Byte>)
    ensures ReadFrom([LF] + bs) == ReadFrom(bs)
    ensures ReadFrom([CR, LF] + bs) == ReadFrom(bs)
  {
    LineSplits([], bs);
    assert [] + [LF] + bs == [LF] + bs && [] + [LF] == [LF];
    LineSplits([CR], bs);
    assert [CR] + [LF] + bs == [CR, LF] + bs && [CR] + [LF] == [CR, LF];
    OnlySpaces();
  }

  lemma OnlySpaces()
    ensures Strip([LF]) == [] && Strip([CR, LF]) == []
    ensures !(CONTENT_LENGTH <= [LF]) && !(CONTENT_LENGTH <= [CR, LF])
  {
    assert StripLeft([LF]) == StripLeft([LF][1..]) && [LF][1..] == [];
    assert StripLeft([CR, LF]) == StripLeft([CR, LF][1..]) && [CR, LF][1..] == [LF];
  }

  /** A line without the header is taken as it is. */
  lemma PlainLineRead(text: seq<Byte>, rest: seq<Byte>)
    requires text != [] && !IsSpace(text[0]) && !IsSpace(text[|text| - 1])
    requires (forall i :: 0 <= i < |text| ==> text[i] != LF) && !(CONTENT_LENGTH <= text + [LF])
    ensures ReadFrom(text + [LF] + rest) == (Line(text), rest)
  {
    LineSplits(text, rest);
    assert StripLeft(text + [LF]) == text + [LF];
    assert (text + [LF])[..|text|] == text;
    assert StripRight(text + [LF]) == StripRight(text);
  }

  // ----- the process's streams

  class Channel {
    const input: Source
    var output: seq<Byte>

    constructor (input: Source)
      ensures this.input == input && output == []
    {
      this.input, output := input, [];
    }

    method WriteMessage(payload: seq<Byte>)
      modifies this
      ensures output == old(output) + Written(payload)
      ensures output == old(output) + (CONTENT_LENGTH + [32] + Digits(|payload|) + [13, 10, 13, 10] + payload)
    {
      WrittenIs(payload);
      output := output + (Header(CONTENT_LENGTH, Digits(|payload|)) + [CR, LF]);
      output := output + payload;
    }

    /** `readline()`. */
    method ReadLine() returns (line: seq<Byte>)
      modifies input
      ensures line == old(input.rest)[..LineEnd(old(input.rest))]
      ensures input.rest == old(input.rest)[LineEnd(old(input.rest))..]
    {
      line := input.Read(LineEnd(input.rest));
    }

    method ReadMessage() returns (outcome: Outcome)
      modifies input
      ensures (outcome, input.rest) == ReadFrom(old(input.rest))
      decreases |input.rest|
    {
      var header := ReadLine();
      if header == [] {
        return EndOfInput;
      }
      if !(CONTENT_LENGTH <= header) {
        var line := Strip(header);
        if line == [] {
          outcome := ReadMessage();
          return;
        }
        return Line(line);
      }
      var length := HeaderLength(header);
      if length.None? {
        return BadHeader;
      }
      ghost var after := input.rest;
      while true
        invariant AfterSeparator(input.rest) == AfterSeparator(after)
        decreases |input.rest|
      {
        var sep := input.Read(2);
        if sep == [CR, LF] {
          break;
        }
        if |sep| < 2 {
          return Spins;
        }
      }
      var body := input.Read(if 0 <= length.value <= |input.rest| then length.value else |input.rest|);
      return Payload(body);
    }
  }
}
