/** Bounded capture of subprocess output (syte/output_limits.py). */
module OutputLimits {
  import opened ByteStream

  function AtLeastZero(n: int): (r: nat)
    ensures r >= n && (r == n || r == 0)
  {
    if n < 0 then 0 else n
  }

  function Prefix(bytes: seq<Byte>, max: int): (r: seq<Byte>)
    ensures r <= bytes
    ensures r == bytes || |r| == AtLeastZero(max) < |bytes|
    ensures |bytes| <= max ==> r == bytes
  {
    if |bytes| <= AtLeastZero(max) then bytes else bytes[..AtLeastZero(max)]
  }

  /** `read_binary_stream_limited`: whatever the chunking, the result is the first `max` bytes, it is
      marked truncated exactly when there were more, and the pipe has been drained. */
  method ReadBinaryLimited(stream: Source, max: int, chunkSize: nat) returns (buf: seq<Byte>, truncated: bool)
    requires chunkSize > 0
    modifies stream
    ensures buf == Prefix(old(stream.rest), max)
    ensures truncated <==> old(stream.rest) != [] && max < |old(stream.rest)|
    ensures !truncated ==> buf == old(stream.rest)
    ensures truncated ==> buf <= old(stream.rest) && |buf| == if max < 0 then 0 else max
    ensures stream.rest == []
  {
    buf, truncated := [], false;
    ghost var all := stream.rest;
    while true
      invariant !truncated && buf + stream.rest == all
      invariant buf != [] ==> |buf| <= max
      decreases |stream.rest|
    {
      var chunk := stream.Recv(chunkSize);
      if chunk == [] {
        break;
      }
      if |buf| + |chunk| > max {
        var room := AtLeastZero(max - |buf|);
        assert buf + chunk[..room] == all[..|buf| + room];
        buf := buf + chunk[..room];
        truncated := true;
        var more := stream.Recv(chunkSize);
        while more != []
          invariant more == [] ==> stream.rest == []
          decreases |stream.rest| + if more == [] then 0 else 1
        {
          more := stream.Recv(chunkSize);
        }
        break;
      }
      buf := buf + chunk;
    }
  }

  /** `read_async_stream_limited`: the same, and nothing at all from a missing stream. */
  method ReadAsyncLimited(stream: Source?, max: int, chunkSize: nat) returns (buf: seq<Byte>, truncated: bool)
    requires chunkSize > 0
    modifies stream
    ensures stream == null ==> buf == [] && !truncated
    ensures stream != null ==>
      && buf == Prefix(old(stream.rest), max)
      && (truncated <==> old(stream.rest) != [] && max < |old(stream.rest)|)
      && (!truncated ==> buf == old(stream.rest))
      && (truncated ==> buf <= old(stream.rest) && |buf| == if max < 0 then 0 else max)
      && stream.rest == []
  {
    if stream == null {
      return [], false;
    }
    buf, truncated := ReadBinaryLimited(stream, max, chunkSize);
  }

  function Concat(lines: seq<seq<Byte>>): seq<Byte> {
    if lines == [] then [] else Concat(lines[..|lines| - 1]) + lines[|lines| - 1]
  }

  /** The text of the lines is one line after the other. */
  lemma {:induction false} ConcatInOrder(before: seq<seq<Byte>>, line: seq<Byte>, behind: seq<seq<Byte>>)
    ensures Concat(before + [line] + behind) == Concat(before) + line + Concat(behind)
    decreases |behind|
  {
    var all := before + [line] + behind;
    if behind == [] {
      assert all[..|all| - 1] == before;
    } else {
      var fewer := behind[..|behind| - 1];
      ConcatInOrder(before, line, fewer);
      assert all[..|all| - 1] == before + [line] + fewer;
      assert Concat(before) + line + (Concat(fewer) + behind[|behind| - 1])
          == Concat(before) + line + Concat(fewer) + behind[|behind| - 1];
    }
  }

  lemma ConcatSnoc(lines: seq<seq<Byte>>, i: nat)
    requires i < |lines|
    ensures Concat(lines[..i + 1]) == Concat(lines[..i]) + lines[i]
    ensures lines[..i + 1] == lines[..i] + [lines[i]]
  {
    assert lines[..i + 1][..i] == lines[..i];
  }

  lemma PrefixIs(bytes: seq<Byte>, max: int)
    ensures Prefix(bytes, max) ==
      if |bytes| <= max || bytes == [] then bytes else if max < 0 then [] else bytes[..max]
  {
  }

  /** What comes behind the first `max` bytes does not matter. */
  lemma PrefixStays(bytes: seq<Byte>, more: seq<Byte>, max: int)
    requires max < |bytes|
    ensures Prefix(bytes + more, max) == Prefix(bytes, max)
  {
  }

  lemma PrefixCuts(bytes: seq<Byte>, line: seq<Byte>, max: int)
    requires (bytes != [] ==> |bytes| <= max) && |bytes| + |line| > max
    ensures Prefix(bytes + line, max) == if max - |bytes| > 0 then bytes + line[..max - |bytes|] else bytes
  {
  }

  /** The log file behind `on_line`. */
  class LineSink {
    var lines: seq<seq<Byte>>

    constructor ()
      ensures lines == []
    {
      lines := [];
    }

    method OnLine(line: seq<Byte>)
      modifies this
      ensures lines == old(lines) + [line]
    {
      lines := lines + [line];
    }
  }

  /** `read_text_stream_limited` before its final strip, on encoded lines, none of them empty:
      every line reaches `on_line` once and in order, and the capture is the whole text, or its
      first `max` bytes and one marker. */
  method ReadTextLimited(lines: seq<seq<Byte>>, max: int, marker: seq<Byte>, sink: LineSink)
    returns (captured: seq<Byte>, truncated: bool)
    requires forall i :: 0 <= i < |lines| ==> lines[i] != []
    modifies sink
    ensures sink.lines == old(sink.lines) + lines
    ensures truncated <==> lines != [] && max < |Concat(lines)|
    ensures !truncated ==> captured == Concat(lines)
    ensures truncated ==> captured == Concat(lines)[..if max < 0 then 0 else max] + marker
  {
    captured, truncated := [], false;
    var size := 0;
    ghost var text: seq<Byte> := [];
    for i := 0 to |lines|
      invariant sink.lines == old(sink.lines) + lines[..i]
      invariant text == Concat(lines[..i])
      invariant !truncated ==> captured == text && size == |captured| && (i > 0 ==> size <= max)
      invariant truncated ==> i > 0 && max < |text| && captured == Prefix(text, max) + marker
    {
      var line := lines[i];
      ConcatSnoc(lines, i);
      sink.OnLine(line);
      if truncated {
        PrefixStays(text, line, max);
        text := text + line;
        continue;
      }
      text := text + line;
      if size + |line| > max {
        var remaining := max - size;
        PrefixCuts(captured, line, max);
        if remaining > 0 {
          captured := captured + line[..remaining];
        }
        captured := captured + marker;
        truncated := true;
        continue;
      }
      captured := captured + line;
      size := size + |line|;
    }
    assert lines[..|lines|] == lines;
    PrefixIs(text, max);
  }
}
