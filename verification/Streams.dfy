/** A TCP connection seen from its two ends: a first-in first-out stream that may be cut into
    chunks anywhere. */
module Streams {

  class Pipe<T> {
    var bytes: seq<T>  // sent and not yet received

    constructor ()
      ensures bytes == []
    {
      bytes := [];
    }

    /** `send` on a blocking socket. */
    method Send(data: seq<T>)
      modifies this
      ensures bytes == old(bytes) + data
    {
      bytes := bytes + data;
    }

    /** `recv`: some non-empty part of what is there, at most cap elements; nothing only at the
        end of the stream. Every chunking is a possible outcome. */
    method Recv(cap: nat) returns (chunk: seq<T>)
      requires cap > 0
      modifies this
      ensures old(bytes) == chunk + bytes
      ensures |chunk| <= cap
      ensures chunk == [] <==> old(bytes) == []
    {
      if bytes == [] {
        return [];
      }
      var n :| 1 <= n <= |bytes| && n <= cap by {
        assert 1 <= 1 <= |bytes| && 1 <= cap;
      }
      chunk, bytes := bytes[..n], bytes[n..];
    }
  }
}
