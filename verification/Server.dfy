/** The agent's connection handler: reads one request piece by piece from a stream, asks the
    backend, writes one response. */
module Server {
  import opened Common
  import opened Decimal
  import opened Codec
  import opened Streams

  datatype Reply = Value(value: Bytes) | Missing | Failure(message: Bytes)

  /** A backend is any pair of functions: by key, and by key with a `vault:` reference. */
  datatype Backend = Backend(resolve: Bytes -> Reply, resolveWithValue: (Bytes, Bytes) -> Reply)

  function Ascii(s: string): Bytes {
    seq(|s|, i requires 0 <= i < |s| => (s[i] as int % 256) as byte)
  }

  const VAULT_BYTES := Ascii(VAULT_PREFIX)

  function UnsupportedVersion(version: byte): Bytes {
    Ascii("unsupported protocol version: " + PrintU64(version))
  }

  /** Which backend function a request reaches. */
  function Dispatched(backend: Backend, key: Bytes, value: Option<Bytes>): Reply {
    match value
    case Some(v) => if VAULT_BYTES <= v then backend.resolveWithValue(key, v) else backend.resolve(key)
    case None => backend.resolve(key)
  }

  /** The value begins with the six bytes of `vault:`. */
  predicate NamesReference(value: Bytes) {
    |value| >= 6 && value[..6] == [118, 97, 117, 108, 116, 58]
  }

  lemma VaultBytes(value: Bytes)
    ensures VAULT_BYTES <= value <==> NamesReference(value)
  {
    assert VAULT_BYTES == [118, 97, 117, 108, 116, 58];
    assert NamesReference(value) ==> value[..|VAULT_BYTES|] == VAULT_BYTES;
  }

  /** The bytes written for a reply; nothing when it does not fit the format. */
  function Written(reply: Reply): Bytes {
    var encoded := match reply
      case Value(v) => EncodedResponse(Found, v)
      case Missing => EncodedResponse(NotFound, [])
      case Failure(m) => EncodedResponse(Error, m);
    match encoded case None => [] case Some(b) => b
  }

  /** What a reply carries, and the status byte it is sent under. */
  function Contents(reply: Reply): Bytes {
    match reply case Value(v) => v case Missing => [] case Failure(m) => m
  }

  lemma ResponseBytes(status: Status, contents: Bytes)
    requires |contents| <= 65535
    ensures var bytes := EncodedResponse(status, contents).value;
            && |bytes| == 3 + |contents| && bytes[3..] == contents
            && 256 * (bytes[1] as int) + bytes[2] as int == |contents|
            && bytes[0] == ToByte(status)
  {
  }

  /** The reply's bytes, one by one: status, length most significant byte first, contents. */
  lemma WrittenBytes(reply: Reply)
    ensures var (contents, bytes) := (Contents(reply), Written(reply));
            if |contents| > 65535 then bytes == []
            else && |bytes| == 3 + |contents| && bytes[3..] == contents
                 && 256 * (bytes[1] as int) + bytes[2] as int == |contents|
                 && bytes[0] == match reply case Value(_) => 0 case Missing => 1 case Failure(_) => 2
  {
    if |Contents(reply)| <= 65535 {
      ResponseBytes(match reply case Value(_) => Found case Missing => NotFound case Failure(_) => Error,
                    Contents(reply));
    }
    hide EncodedResponse;
  }

  datatype Handled = Handled(failed: bool, written: Bytes, left: Bytes)

  predicate Supported(version: byte) {
    version == PROTOCOL_V1 || version == PROTOCOL_V2
  }

  /** What handling a connection comes to, in terms of the whole-buffer decoder. */
  ghost predicate AgreesWithDecoder(input: Bytes, backend: Backend, h: Handled) {
    if |input| < 3 then h == Handled(true, [], [])
    else if !Supported(input[0]) then
      h.failed == false && h.left == input[3..]
      && Some(h.written) == EncodedResponse(Error, UnsupportedVersion(input[0]))
    else match DecodeRequest(input)
      case Ok(req) =>
        && Normal(req) && Message(req) <= input
        && h == Handled(false, Written(Dispatched(backend, req.key, req.value)), input[|Message(req)|..])
      case _ => h == Handled(true, [], [])
  }

  /** `read_exact` into a buffer of `n` bytes, skipped when there is nothing to read. */
  method ReadCounted(s: ByteStream, n: nat) returns (r: Option<Bytes>)
    modifies s
    ensures (r, s.rest) == Taken(old(s.rest), n)
  {
    if n == 0 {
      return Some([]);
    }
    r := RecvExact(s, n);
  }

  /** The version-2 value: two bytes of length, then the value. */
  method ReadValue(s: ByteStream) returns (r: Option<Bytes>)
    modifies s
    ensures var input := old(s.rest);
            if |input| < 2 || |input| < 2 + FromBe16(input[0], input[1]) then r == None && s.rest == []
            else var n := 2 + FromBe16(input[0], input[1]); r == Some(input[2..n]) && s.rest == input[n..]
  {
    ghost var input := s.rest;
    var header := RecvExact(s, 2);
    if header.None? {
      return None;
    }
    var n := FromBe16(header.value[0], header.value[1]);
    assert input[..2] == header.value && s.rest == input[2..];
    assert |input| >= 2 + n ==> input[2..][..n] == input[2..2 + n] && input[2..][n..] == input[2 + n..];
    r := ReadCounted(s, n);
  }

  /** The version-2 layout, field by field. */
  lemma DecodedV2(input: Bytes)
    requires |input| >= 3 && input[0] == PROTOCOL_V2
    ensures var keyLen := FromBe16(input[1], input[2]);
            DecodeRequest(input) ==
            if |input| < 3 + keyLen then Incomplete
            else
              var rest := input[3 + keyLen..];
              if |rest| < 2 || |rest| < 2 + FromBe16(rest[0], rest[1]) then Incomplete
              else
                var value := rest[2..2 + FromBe16(rest[0], rest[1])];
                Ok(Request(PROTOCOL_V2, input[3..3 + keyLen], if value == [] then None else Some(value)))
  {
    var at := 3 + FromBe16(input[1], input[2]);
    if |input| >= at + 2 {
      var n := FromBe16(input[at], input[at + 1]);
      assert |input| >= at + 2 + n ==> input[at..][2..2 + n] == input[at + 2..at + 2 + n];
    }
  }

  lemma DecodedV1(input: Bytes)
    requires |input| >= 3 && input[0] == PROTOCOL_V1
    ensures var keyLen := FromBe16(input[1], input[2]);
            DecodeRequest(input) ==
            if |input| < 3 + keyLen then Incomplete else Ok(Request(PROTOCOL_V1, input[3..3 + keyLen], None))
  {
  }

  lemma MessageLength(req: Request)
    requires Normal(req)
    ensures |Message(req)| == 3 + |req.key| + if req.version == PROTOCOL_V1 then 0 else 2 + |ValueOrEmpty(req.value)|
  {
  }

  lemma AfterHeader(header: Bytes, body: Bytes, n: nat)
    requires |header| == 3 && n <= |body|
    ensures (header + body)[3..3 + n] == body[..n] && (header + body)[3 + n..] == body[n..]
  {
  }

  /** Key and value of a request whose three header bytes have been read. */
  method ReadBody(s: ByteStream, header: Bytes) returns (r: Option<Request>)
    requires |header| == 3 && Supported(header[0])
    modifies s
    ensures match DecodeRequest(header + old(s.rest))
            case Ok(req) =>
              r == Some(req) && Normal(req) && Message(req) <= header + old(s.rest)
              && s.rest == (header + old(s.rest))[|Message(req)|..]
            case _ => r == None && s.rest == []
  {
    hide DecodeRequest, Message;
    ghost var body := s.rest;
    ghost var input := header + body;
    var keyLen := FromBe16(header[1], header[2]);
    assert input[0] == header[0] && FromBe16(input[1], input[2]) == keyLen;
    if header[0] == PROTOCOL_V1 {
      DecodedV1(input);
    } else {
      DecodedV2(input);
    }
    var key := ReadCounted(s, keyLen);
    if key.None? {
      return None;
    }
    AfterHeader(header, body, keyLen);
    if header[0] == PROTOCOL_V1 {
      r := Some(Request(PROTOCOL_V1, key.value, None));
      RequestDecodedExactly(input, r.value);
      MessageLength(r.value);
      return;
    }
    var value := ReadValue(s);
    if value.None? {
      return None;
    }
    r := Some(Request(PROTOCOL_V2, key.value, if value.value == [] then None else value));
    RequestDecodedExactly(input, r.value);
    MessageLength(r.value);
    assert s.rest == input[5 + keyLen + |value.value|..];
  }

  method Respond(reply: Reply) returns (written: Bytes)
    ensures written == Written(reply)
  {
    var response: Option<Bytes>;
    match reply {
      case Value(v) => response := EncodeResponse(Found, v);
      case Missing => response := EncodeResponse(NotFound, []);
      case Failure(m) => response := EncodeResponse(Error, m);
    }
    written := if response.Some? then response.value else [];
  }

  lemma {:induction false} ShortNumber(n: nat)
    requires n < 1000
    ensures |PrintU64(n)| <= 3
  {
    if n >= 10 && n >= 100 {
      assert |PrintU64(n / 100)| == 1;
      assert |PrintU64(n / 10)| == 2;
    } else if n >= 10 {
      assert |PrintU64(n / 10)| == 1;
    }
  }

  lemma ShortMessage(version: byte)
    ensures |UnsupportedVersion(version)| <= MAX_LEN
  {
    ShortNumber(version);
  }

  method HandleConnection(s: ByteStream, backend: Backend) returns (h: Handled)
    modifies s
    ensures h.left == s.rest
    ensures AgreesWithDecoder(old(s.rest), backend, h)
    ensures |old(s.rest)| >= 3 && old(s.rest)[0] in {1, 2} && DecodeRequest(old(s.rest)).Ok?
            ==> var req := DecodeRequest(old(s.rest)).message;
                && (req.value.Some? && NamesReference(req.value.value)
                    ==> h.written == Written(backend.resolveWithValue(req.key, req.value.value)))
                && (!(req.value.Some? && NamesReference(req.value.value))
                    ==> h.written == Written(backend.resolve(req.key)))
    ensures |old(s.rest)| >= 3 && old(s.rest)[0] !in {1, 2}
            ==> && !h.failed && h.left == old(s.rest)[3..]
                && |h.written| >= 3 && h.written[0] == 2
                && h.written[3..] == Ascii("unsupported protocol version: " + PrintU64(old(s.rest)[0]))
  {
    ghost var input := s.rest;
    var header := RecvExact(s, 3);
    if header.None? {
      return Handled(true, [], s.rest);
    }
    var version := header.value[0];
    if version != PROTOCOL_V1 && version != PROTOCOL_V2 {
      ShortMessage(version);
      var response := EncodeResponse(Error, UnsupportedVersion(version));
      return Handled(false, response.value, s.rest);
    }
    assert input == header.value + s.rest;
    var req := ReadBody(s, header.value);
    if req.None? {
      return Handled(true, [], s.rest);
    }
    if req.value.value.Some? {
      VaultBytes(req.value.value.value);
    }
    var reply := Dispatched(backend, req.value.key, req.value.value);
    var written := Respond(reply);
    h := Handled(false, written, s.rest);
  }

  /** The buffer decoder reads a version-3 request as if it were version 2; the handler
      refuses it after three bytes. */
  lemma UnknownVersionsDiffer(version: byte, key: Bytes, value: Bytes, backend: Backend, h: Handled)
    requires !Supported(version) && |key| <= MAX_LEN && |value| <= MAX_LEN
    requires AgreesWithDecoder(EncodedRequest(version, key, value).value, backend, h)
    ensures DecodeRequest(EncodedRequest(version, key, value).value) ==
            Ok(Request(version, key, if value == [] then None else Some(value)))
    ensures Some(h.written) == EncodedResponse(Error, UnsupportedVersion(version))
  {
    RequestRoundTrip(version, key, value, []);
    var msg := EncodedRequest(version, key, value).value;
    assert msg + [] == msg;
    assert |msg| >= 3 && msg[0] == version;
  }
}
