/** The wire format: encoders that build a buffer step by step, decoders that slice one. */
module Codec {
  import opened Common

  type Bytes = seq<byte>

  const PROTOCOL_V1: byte := 1
  const PROTOCOL_V2: byte := 2
  const MAX_LEN: nat := 0xFFFF

  datatype Status = Found | NotFound | Error | Passthrough

  datatype Request = Request(version: byte, key: Bytes, value: Option<Bytes>)

  datatype Response = Response(status: Status, value: Bytes)

  datatype Decoded<+T> = Ok(message: T) | Incomplete | InvalidStatus(status: byte)

  function ToByte(s: Status): byte {
    match s case Found => 0 case NotFound => 1 case Error => 2 case Passthrough => 3
  }

  function FromByte(b: byte): Option<Status> {
    if b == 0 then Some(Found)
    else if b == 1 then Some(NotFound)
    else if b == 2 then Some(Error)
    else if b == 3 then Some(Passthrough)
    else None
  }

  /** A 16-bit length, most significant byte first. */
  function Be16(n: nat): Bytes
    requires n <= MAX_LEN
  {
    [n / 256, n % 256]
  }

  function FromBe16(hi: byte, lo: byte): nat {
    256 * hi + lo
  }

  /** A length-prefixed field. */
  function Field(data: Bytes): Bytes
    requires |data| <= MAX_LEN
  {
    Be16(|data|) + data
  }

  function EncodedRequest(version: byte, key: Bytes, value: Bytes): Option<Bytes> {
    if |key| > MAX_LEN then None
    else if version == PROTOCOL_V1 then Some([version] + Field(key))
    else if |value| > MAX_LEN then None
    else Some([version] + Field(key) + Field(value))
  }

  function EncodedResponse(status: Status, value: Bytes): Option<Bytes> {
    if |value| > MAX_LEN then None else Some([ToByte(status)] + Field(value))
  }

  method EncodeRequest(version: byte, key: Bytes, value: Bytes) returns (r: Option<Bytes>)
    ensures r == EncodedRequest(version, key, value)
    ensures r.None? <==> |key| > 65535 || (version != 1 && |value| > 65535)
    ensures r.Some? ==>
              var (buf, at) := (r.value, 3 + |key|);
              && |buf| == at + (if version == 1 then 0 else 2 + |value|)
              && buf[0] == version && 256 * (buf[1] as int) + buf[2] as int == |key| && buf[3..at] == key
              && (version != 1 ==> 256 * (buf[at] as int) + buf[at + 1] as int == |value| && buf[at + 2..] == value)
  {
    if |key| > MAX_LEN {
      return None;
    }
    var buf: Bytes := [];
    if version == PROTOCOL_V1 {
      buf := buf + [version];
      buf := buf + Be16(|key|);
      buf := buf + key;
      assert buf == [version] + Field(key);
      return Some(buf);
    }
    if |value| > MAX_LEN {
      return None;
    }
    buf := buf + [version];
    buf := buf + Be16(|key|);
    buf := buf + key;
    buf := buf + Be16(|value|);
    buf := buf + value;
    assert buf == [version] + Field(key) + Field(value);
    r := Some(buf);
  }

  method EncodeResponse(status: Status, value: Bytes) returns (r: Option<Bytes>)
    ensures r == EncodedResponse(status, value)
    ensures r.None? <==> |value| > 65535
    ensures r.Some? ==>
              var buf := r.value;
              && |buf| == 3 + |value| && 256 * (buf[1] as int) + buf[2] as int == |value| && buf[3..] == value
              && buf[0] == match status case Found => 0 case NotFound => 1 case Error => 2 case Passthrough => 3
  {
    if |value| > MAX_LEN {
      return None;
    }
    var buf: Bytes := [];
    buf := buf + [ToByte(status)];
    buf := buf + Be16(|value|);
    buf := buf + value;
    assert buf == [ToByte(status)] + Field(value);
    r := Some(buf);
  }

  function DecodeRequest(buf: Bytes): Decoded<Request> {
    if |buf| < 3 then Incomplete
    else
      var keyLen := FromBe16(buf[1], buf[2]);
      if |buf| < 3 + keyLen then Incomplete
      else
        var key := buf[3..3 + keyLen];
        if buf[0] == PROTOCOL_V1 then Ok(Request(buf[0], key, None))
        else
          var at := 3 + keyLen;
          if |buf| < at + 2 then Incomplete
          else
            var valLen := FromBe16(buf[at], buf[at + 1]);
            if |buf| < at + 2 + valLen then Incomplete
            else
              var value := buf[at + 2..at + 2 + valLen];
              Ok(Request(buf[0], key, if value == [] then None else Some(value)))
  }

  function DecodeResponse(buf: Bytes): Decoded<Response> {
    if |buf| < 3 then Incomplete
    else
      match FromByte(buf[0])
      case None => InvalidStatus(buf[0])
      case Some(status) =>
        var valLen := FromBe16(buf[1], buf[2]);
        if |buf| < 3 + valLen then Incomplete else Ok(Response(status, buf[3..3 + valLen]))
  }

  // ---------- fields are self-delimiting ----------

  /** A buffer starts with a field exactly when its first two bytes count what follows. */
  predicate StartsWithField(buf: Bytes, data: Bytes) {
    |buf| >= 2 && |buf| >= 2 + |data| && FromBe16(buf[0], buf[1]) == |data| && buf[2..2 + |data|] == data
  }

  lemma FieldPrefix(buf: Bytes, data: Bytes)
    requires |data| <= MAX_LEN
    ensures Field(data) <= buf <==> StartsWithField(buf, data)
  {
  }

  // ---------- requests ----------

  /** Requests a decoder can return: version 1 carries no value, and no value is empty. */
  predicate Normal(req: Request) {
    && |req.key| <= MAX_LEN
    && (req.version == PROTOCOL_V1 ==> req.value.None?)
    && (req.value.Some? ==> 0 < |req.value.value| <= MAX_LEN)
  }

  function ValueOrEmpty(v: Option<Bytes>): Bytes {
    match v case None => [] case Some(b) => b
  }

  function Message(req: Request): Bytes
    requires Normal(req)
  {
    EncodedRequest(req.version, req.key, ValueOrEmpty(req.value)).value
  }

  lemma ConcatPrefix(a: Bytes, b: Bytes, buf: Bytes)
    ensures a + b <= buf <==> |buf| >= |a| && a <= buf && b <= buf[|a|..]
  {
  }

  lemma MessagePrefix(req: Request, buf: Bytes)
    requires Normal(req)
    ensures Message(req) <= buf <==>
            && |buf| >= 3 + |req.key| && buf[0] == req.version && StartsWithField(buf[1..], req.key)
            && (req.version == PROTOCOL_V1 || StartsWithField(buf[3 + |req.key|..], ValueOrEmpty(req.value)))
  {
    var head, k, v := [req.version], Field(req.key), Field(ValueOrEmpty(req.value));
    ConcatPrefix(head, k, buf);
    ConcatPrefix(head + k, v, buf);
    if |buf| >= 1 {
      assert head <= buf <==> buf[0] == req.version;
      FieldPrefix(buf[1..], req.key);
    }
    if |buf| >= 3 + |req.key| {
      FieldPrefix(buf[3 + |req.key|..], ValueOrEmpty(req.value));
    }
  }

  /** Main result on requests: the decoder returns a request exactly when the buffer starts
      with that request's encoding, whatever follows; any version other than 1 is laid out
      like version 2. */
  lemma RequestDecodedExactly(buf: Bytes, req: Request)
    ensures DecodeRequest(buf) == Ok(req) <==> Normal(req) && Message(req) <= buf
  {
    var at := 3 + |req.key|;
    if Normal(req) {
      MessagePrefix(req, buf);
    }
    if |buf| >= at {
      assert buf[1..][2..2 + |req.key|] == buf[3..at];
      assert |buf| >= at + 2 + |ValueOrEmpty(req.value)| ==>
               buf[at..][2..2 + |ValueOrEmpty(req.value)|] == buf[at + 2..at + 2 + |ValueOrEmpty(req.value)|];
    }
  }

  lemma PrefixesCompare(a: Bytes, b: Bytes, whole: Bytes)
    requires a <= whole && b <= whole
    ensures a < b || b <= a
  {
  }

  lemma PrefixTrans(a: Bytes, b: Bytes, c: Bytes)
    requires a <= b <= c
    ensures a <= c
  {
  }

  /** The decoder asks for more exactly when some message properly extends the buffer. */
  lemma RequestIncompleteExactly(buf: Bytes)
    ensures DecodeRequest(buf) == Incomplete <==> exists req :: Normal(req) && buf < Message(req)
  {
    if DecodeRequest(buf).Ok? {
      var got := DecodeRequest(buf).message;
      RequestDecodedExactly(buf, got);
      forall req | Normal(req) && buf < Message(req) ensures false {
        PrefixTrans(Message(got), buf, Message(req));
        RequestDecodedExactly(Message(req), got);
        RequestDecodedExactly(Message(req), req);
      }
    } else {
      var whole := buf + seq(140000, _ => 0 as byte);
      var req := DecodeRequest(whole).message;
      RequestDecodedExactly(whole, req);
      RequestDecodedExactly(buf, req);
      PrefixesCompare(buf, Message(req), whole);
    }
  }

  /** Round trip through the encoder, with any bytes following. */
  lemma RequestRoundTrip(version: byte, key: Bytes, value: Bytes, rest: Bytes)
    requires EncodedRequest(version, key, value).Some?
    ensures DecodeRequest(EncodedRequest(version, key, value).value + rest) ==
            Ok(Request(version, key, if version == PROTOCOL_V1 || value == [] then None else Some(value)))
  {
    var req := Request(version, key, if version == PROTOCOL_V1 || value == [] then None else Some(value));
    assert Message(req) == EncodedRequest(version, key, value).value;
    RequestDecodedExactly(Message(req) + rest, req);
  }

  // ---------- responses ----------

  lemma ResponseDecodedExactly(buf: Bytes, resp: Response)
    ensures DecodeResponse(buf) == Ok(resp)
            <==> |resp.value| <= MAX_LEN && EncodedResponse(resp.status, resp.value).value <= buf
  {
    if |resp.value| <= MAX_LEN {
      var head := [ToByte(resp.status)];
      ConcatPrefix(head, Field(resp.value), buf);
      if |buf| >= 1 {
        assert head <= buf <==> buf[0] == ToByte(resp.status);
        FieldPrefix(buf[1..], resp.value);
      }
    }
    if |buf| >= 3 + |resp.value| {
      assert buf[1..][2..2 + |resp.value|] == buf[3..3 + |resp.value|];
    }
  }

  /** A status byte over 3 is reported once the header is there, whatever the length says. */
  lemma InvalidStatusExactly(buf: Bytes, status: byte)
    ensures DecodeResponse(buf) == InvalidStatus(status) <==> |buf| >= 3 && buf[0] == status && status > 3
  {
  }

  /** Main result on responses: cutting a response short anywhere yields `Incomplete`, so one
      short `read` gives the right answer or an error, never a wrong value; whatever follows a
      whole response is ignored. */
  lemma ResponseCutAnywhere(status: Status, value: Bytes, part: Bytes)
    requires |value| <= MAX_LEN
    ensures var msg := EncodedResponse(status, value).value;
            && (part < msg ==> DecodeResponse(part) == Incomplete)
            && (msg <= part ==> DecodeResponse(part) == Ok(Response(status, value)))
  {
    var msg := EncodedResponse(status, value).value;
    ResponseDecodedExactly(part, Response(status, value));
    ResponseDecodedExactly(msg, Response(status, value));
    if part < msg {
      assert |part| > 0 ==> part[0] == msg[0];
      if DecodeResponse(part).Ok? {
        var got := DecodeResponse(part).message;
        ResponseDecodedExactly(part, got);
        PrefixTrans(EncodedResponse(got.status, got.value).value, part, msg);
        ResponseDecodedExactly(msg, got);
      }
    }
  }
}
