/** Byte streams as the operating system hands them out: in pieces of any size. */
module ByteStream {
  type Byte = x: int | 0 <= x < 256

  /** What is still to come from a socket, a pipe or a file; then end of stream. */
  class Source {
    var rest: seq<Byte>

    constructor (bytes: seq<Byte>)
      ensures rest == bytes
    {
      rest := bytes;
    }

    /** `recv(n)` or `read(n)`: between one byte and n, as the system likes; nothing only at the end. */
    method Recv(n: nat) returns (chunk: seq<Byte>)
      modifies this
      ensures chunk + rest == old(rest) && |chunk| <= n
      ensures chunk == [] <==> n == 0 || old(rest) == []
    {
      var k: nat :| k <= n && k <= |rest| && (k == 0 <==> n == 0 || rest == []);
      chunk, rest := rest[..k], rest[k..];
    }

    /** A buffered `read(n)`: n bytes, or what is left. */
    method Read(n: nat) returns (chunk: seq<Byte>)
      modifies this
      ensures chunk + rest == old(rest)
      ensures |chunk| == if n <= old(|rest|) then n else old(|rest|)
    {
      var k := if n <= |rest| then n else |rest|;
      chunk, rest := rest[..k], rest[k..];
    }
  }
}
