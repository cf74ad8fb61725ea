/** Byte streams that deliver in chunks of arbitrary size, and the loops that read an exact
    number of bytes from them. What a stream will still deliver before end of stream, error or
    timeout is `rest`; every reader here treats those three ends alike. */
module Streams {
  import opened Common
  import opened Codec

  class ByteStream {
    var rest: Bytes

    constructor (bytes: Bytes)
      ensures rest == bytes
    {
      rest := bytes;
    }

    /** At most `n` bytes; at least one unless the stream has ended. How many is not determined
        by the caller. */
    method Recv(n: nat) returns (chunk: Bytes)
      requires n > 0
      modifies this
      ensures chunk + rest == old(rest) && |chunk| <= n
      ensures chunk == [] ==> old(rest) == []
    {
      if rest == [] {
        return [];
      }
      var k: nat :| 1 <= k <= n && k <= |rest|;
      chunk := rest[..k];
      rest := rest[k..];
    }
  }

  /** The next `n` bytes of what is to come, and what they leave; a short stream is used up. */
  function Taken(bytes: Bytes, n: nat): (Option<Bytes>, Bytes) {
    if |bytes| < n then (None, []) else (Some(bytes[..n]), bytes[n..])
  }

  /** Grows a buffer chunk by chunk until it holds `n` bytes (the Python loop; `read_exact` of
      the Rust ends does the same). */
  method RecvExact(s: ByteStream, n: nat) returns (r: Option<Bytes>)
    modifies s
    ensures (r, s.rest) == Taken(old(s.rest), n)
  {
    var buf: Bytes := [];
    while |buf| < n
      invariant buf + s.rest == old(s.rest) && |buf| <= n
      decreases n - |buf|
    {
      var chunk := s.Recv(n - |buf|);
      if chunk == [] {
        return None;
      }
      buf := buf + chunk;
    }
    assert old(s.rest)[..n] == buf && old(s.rest)[n..] == s.rest;
    return Some(buf);
  }

  /** Fills a fixed buffer in place (the Java loop). */
  method ReadFully(s: ByteStream, buf: array<byte>) returns (ok: bool)
    modifies s, buf
    ensures ok <==> Taken(old(s.rest), buf.Length).0.Some?
    ensures s.rest == Taken(old(s.rest), buf.Length).1
    ensures ok ==> Some(buf[..]) == Taken(old(s.rest), buf.Length).0
  {
    var position := 0;
    while position < buf.Length
      invariant 0 <= position <= buf.Length
      invariant buf[..position] + s.rest == old(s.rest)
    {
      var chunk := s.Recv(buf.Length - position);
      if chunk == [] {
        assert old(s.rest) == buf[..position];
        return false;
      }
      ghost var filled := buf[..position];
      forall i | 0 <= i < |chunk| {
        buf[position + i] := chunk[i];
      }
      assert buf[..position + |chunk|] == filled + chunk;
      position := position + |chunk|;
    }
    assert buf[..] == buf[..position] == old(s.rest)[..position];
    return true;
  }
}
