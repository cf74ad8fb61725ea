/** The three clients and the whole path: encode, send, serve, reply, decode. Every result is
    stated against a direct call of the backend, for every chunking of both streams and every
    point at which either stream is cut. */
module EndToEnd {
  import opened Common
  import opened Codec
  import opened Streams
  import opened Server

  /** One connection: whether it opens, and how many bytes arrive each way before it breaks. */
  datatype Link = Link(connects: bool, sent: nat, received: nat)

  function Cut(bytes: Bytes, n: nat): Bytes {
    if n < |bytes| then bytes[..n] else bytes
  }

  // ---------- reading a reply ----------

  /** What a reply means to a client: a value only if it is whole and says `Found`. */
  function Answer(reply: Bytes): Option<Bytes> {
    match DecodeResponse(reply)
    case Ok(Response(Found, v)) => Some(v)
    case _ => None
  }

  /** A C string cannot hold a zero byte. */
  function CString(value: Option<Bytes>): Option<Bytes> {
    if value.Some? && 0 !in value.value then value else None
  }

  /** The preload library's reader: an unknown status ends it before the value is read. */
  method ReadReplyC(s: ByteStream) returns (r: Option<Bytes>)
    modifies s
    ensures r == CString(Answer(old(s.rest)))
  {
    ghost var input := s.rest;
    var header := RecvExact(s, 3);
    if header.None? {
      return None;
    }
    var status := FromByte(header.value[0]);
    if status.None? {
      return None;
    }
    var n := FromBe16(header.value[1], header.value[2]);
    assert input[3..] == s.rest && (|input| >= 3 + n ==> input[3..][..n] == input[3..3 + n]);
    var value := ReadCounted(s, n);
    if value.None? {
      return None;
    }
    match status.value {
      case Found => r := if 0 in value.value then None else value;
      case NotFound => r := None;
      case Error => r := None;
      case Passthrough => r := None;
    }
  }

  /** The Python hook's reader: the value is read whatever the status. */
  method ReadReplyPython(s: ByteStream) returns (r: Option<Bytes>)
    modifies s
    ensures r == Answer(old(s.rest))
  {
    ghost var input := s.rest;
    var header := RecvExact(s, 3);
    if header.None? {
      return None;
    }
    var status := header.value[0];
    var n := FromBe16(header.value[1], header.value[2]);
    assert input[3..] == s.rest && (|input| >= 3 + n ==> input[3..][..n] == input[3..3 + n]);
    var bytes := [];
    if n > 0 {
      var got := RecvExact(s, n);
      if got.None? {
        return None;
      }
      bytes := got.value;
    }
    r := if status == 0 then Some(bytes) else None;
  }

  /** The Java hook's reader: two buffers filled in place. */
  method ReadReplyJava(s: ByteStream) returns (r: Option<Bytes>)
    modifies s
    ensures r == Answer(old(s.rest))
  {
    ghost var input := s.rest;
    var header := new byte[3];
    var ok := ReadFully(s, header);
    if !ok {
      return None;
    }
    assert header[..] == input[..3];
    assert header[0] == header[..][0] && header[1] == header[..][1] && header[2] == header[..][2];
    var status := header[0];
    var n := FromBe16(header[1], header[2]);
    assert input[3..] == s.rest && (|input| >= 3 + n ==> input[3..][..n] == input[3..3 + n]);
    var value := new byte[n];
    if n > 0 {
      ok := ReadFully(s, value);
      if !ok {
        return None;
      }
    }
    assert value[..] == input[3..3 + n];
    r := if status == 0 then Some(value[..]) else None;
  }

  // ---------- the direct specification ----------

  function Fits(reply: Reply): Option<Bytes> {
    match reply
    case Value(v) => if |v| <= MAX_LEN then Some(v) else None
    case _ => None
  }

  /** Asking the backend directly, within the limits of the format. */
  function Direct(backend: Backend, key: Bytes, current: Option<Bytes>): Option<Bytes> {
    if |key| > MAX_LEN || (current.Some? && |current.value| > MAX_LEN) then None
    else Fits(Dispatched(backend, key, current))
  }

  lemma AnswerOfReply(reply: Reply, cut: nat)
    ensures Answer(Cut(Written(reply), cut)) == if cut >= |Written(reply)| then Fits(reply) else None
  {
    var encoded := match reply
      case Value(v) => (Found, v)
      case Missing => (NotFound, [])
      case Failure(m) => (Error, m);
    if |encoded.1| <= MAX_LEN {
      ResponseCutAnywhere(encoded.0, encoded.1, Cut(Written(reply), cut));
    }
  }

  /** What the handler writes for a request that arrives whole or cut. */
  lemma ServedRequest(version: byte, key: Bytes, value: Bytes, sent: nat, backend: Backend, h: Handled)
    requires Supported(version) && EncodedRequest(version, key, value).Some?
    requires AgreesWithDecoder(Cut(EncodedRequest(version, key, value).value, sent), backend, h)
    ensures h.written ==
            if sent < |EncodedRequest(version, key, value).value| then []
            else Written(Dispatched(backend, key, if version == PROTOCOL_V1 then None else Some(value)))
  {
    var msg := EncodedRequest(version, key, value).value;
    RequestRoundTrip(version, key, value, []);
    assert msg + [] == msg;
    assert |msg| >= 3 && msg[0] == version;
    if sent < |msg| {
      var req := DecodeRequest(msg).message;
      assert Normal(req) && Message(req) == msg;
      RequestIncompleteExactly(msg[..sent]);
    }
  }

  /** Whether both directions deliver everything. */
  predicate Delivered(link: Link, request: Bytes, reply: Reply) {
    link.connects && link.sent >= |request| && link.received >= |Written(reply)|
  }

  /** The agent's side of one connection, and what of its response gets back. */
  method Exchange(link: Link, request: Bytes, backend: Backend) returns (down: ByteStream, ghost h: Handled)
    ensures fresh(down) && down.rest == Cut(h.written, link.received)
    ensures AgreesWithDecoder(Cut(request, link.sent), backend, h)
  {
    var up := new ByteStream(Cut(request, link.sent));
    var handled := HandleConnection(up, backend);
    h := handled;
    down := new ByteStream(Cut(handled.written, link.received));
  }

  // ---------- the preload library ----------

  method QueryAgentC(link: Link, backend: Backend, key: Bytes, current: Option<Bytes>) returns (r: Option<Bytes>)
    ensures var request := EncodedRequest(if current.Some? then PROTOCOL_V2 else PROTOCOL_V1, key,
                                          ValueOrEmpty(current));
            r == if request.Some? && Delivered(link, request.value, Dispatched(backend, key, current))
                 then CString(Direct(backend, key, current)) else None
  {
    var version := if current.Some? then PROTOCOL_V2 else PROTOCOL_V1;
    var request := EncodeRequest(version, key, ValueOrEmpty(current));
    if request.None? || !link.connects {
      return None;
    }
    var down, h := Exchange(link, request.value, backend);
    ServedRequest(version, key, ValueOrEmpty(current), link.sent, backend, h);
    AnswerOfReply(Dispatched(backend, key, current), link.received);
    assert Answer([]) == None;
    r := ReadReplyC(down);
  }

  const OWN_PREFIX: Bytes := Ascii("ENVPROXY_")

  lemma OwnPrefixBytes()
    ensures OWN_PREFIX == [69, 78, 86, 80, 82, 79, 88, 89, 95]
  {
  }

  /** What `getenv` should return: the real value for our own variables, when disabled, and
      whenever the backend has no usable answer. */
  function DirectGetenv(backend: Backend, enabled: bool, key: Option<Bytes>, own: Option<Bytes>): Option<Bytes> {
    if key.None? || OWN_PREFIX <= key.value || !enabled then own
    else
      var reference := if own.Some? && VAULT_BYTES <= own.value then own else None;
      var resolved := CString(Direct(backend, key.value, reference));
      if resolved.Some? then resolved else own
  }

  /** Whether the query `getenv` makes reaches the agent and its answer comes back whole. */
  predicate Reached(link: Link, backend: Backend, key: Bytes, own: Option<Bytes>) {
    var reference := if own.Some? && VAULT_BYTES <= own.value then own else None;
    var request := EncodedRequest(if reference.Some? then PROTOCOL_V2 else PROTOCOL_V1, key, ValueOrEmpty(reference));
    request.None? || Delivered(link, request.value, Dispatched(backend, key, reference))
  }

  /** Main result: over any link, `getenv` is the direct call when both messages get through,
      and the real value when they do not; nothing in between. */
  method Getenv(link: Link, backend: Backend, enabled: bool, key: Option<Bytes>, own: Option<Bytes>)
    returns (r: Option<Bytes>)
    ensures key.Some? && Reached(link, backend, key.value, own)
            ==> r == DirectGetenv(backend, enabled, key, own)
    ensures key.None? || !Reached(link, backend, key.value, own) ==> r == own
    ensures !enabled ==> r == own
    ensures key.Some? && [69, 78, 86, 80, 82, 79, 88, 89, 95] <= key.value ==> r == own  // "ENVPROXY_"
    ensures enabled && key.Some? && !(OWN_PREFIX <= key.value) && own.Some? && NamesReference(own.value)
            ==> var request := EncodedRequest(2, key.value, own.value);
                var reply := backend.resolveWithValue(key.value, own.value);
                r == if request.Some? && Delivered(link, request.value, reply)
                        && reply.Value? && |reply.value| <= 65535 && 0 !in reply.value
                     then Some(reply.value) else own
    ensures enabled && key.Some? && !(OWN_PREFIX <= key.value) && !(own.Some? && NamesReference(own.value))
            ==> var request := EncodedRequest(1, key.value, []);
                var reply := backend.resolve(key.value);
                r == if request.Some? && Delivered(link, request.value, reply)
                        && reply.Value? && |reply.value| <= 65535 && 0 !in reply.value
                     then Some(reply.value) else own
  {
    OwnPrefixBytes();
    if own.Some? {
      VaultBytes(own.value);
    }
    if key.None? {
      return own;
    }
    if OWN_PREFIX <= key.value {
      return own;
    }
    if !enabled {
      return own;
    }
    if own.Some? && VAULT_BYTES <= own.value {
      var resolved := QueryAgentC(link, backend, key.value, own);
      if resolved.Some? {
        return resolved;
      }
      return own;
    }
    var resolved := QueryAgentC(link, backend, key.value, None);
    if resolved.Some? {
      return resolved;
    }
    return own;
  }

  // ---------- the Python and Java hooks ----------

  method QueryAgentPython(link: Link, backend: Backend, key: Bytes, current: Option<Bytes>) returns (r: Option<Bytes>)
    ensures var request := EncodedRequest(if current.Some? then PROTOCOL_V2 else PROTOCOL_V1, key,
                                          ValueOrEmpty(current));
            r == if request.Some? && Delivered(link, request.value, Dispatched(backend, key, current))
                 then Direct(backend, key, current) else None
    ensures current.Some? && NamesReference(current.value)
            ==> var request := EncodedRequest(2, key, current.value);
                var reply := backend.resolveWithValue(key, current.value);
                r == if request.Some? && Delivered(link, request.value, reply)
                        && reply.Value? && |reply.value| <= 65535
                     then Some(reply.value) else None
    ensures current.None?
            ==> var request := EncodedRequest(1, key, []);
                var reply := backend.resolve(key);
                r == if request.Some? && Delivered(link, request.value, reply)
                        && reply.Value? && |reply.value| <= 65535
                     then Some(reply.value) else None
  {
    if current.Some? {
      VaultBytes(current.value);
    }
    var version := if current.Some? then PROTOCOL_V2 else PROTOCOL_V1;
    if |key| > MAX_LEN {
      return None;
    }
    if current.Some? && |current.value| > MAX_LEN {
      return None;
    }
    var request := EncodeRequest(version, key, ValueOrEmpty(current));
    if !link.connects {
      return None;
    }
    var down, h := Exchange(link, request.value, backend);
    ServedRequest(version, key, ValueOrEmpty(current), link.sent, backend, h);
    AnswerOfReply(Dispatched(backend, key, current), link.received);
    assert Answer([]) == None;
    r := ReadReplyPython(down);
  }

  /** The Java request: the value's length is cast to 16 bits, the value itself is not cut. */
  function JavaRequest(key: Bytes, value: Bytes): Bytes
    requires |key| <= MAX_LEN
  {
    [PROTOCOL_V2] + Field(key) + (Be16(|value| % 0x10000) + value)
  }

  /** What the agent reads from a Java request: the value's first `length mod 65536` bytes, so
      the whole reference exactly when it is within bounds. */
  lemma JavaRequestDecoded(key: Bytes, value: Bytes)
    requires |key| <= MAX_LEN
    ensures var shown := value[..|value| % 0x10000];
            DecodeRequest(JavaRequest(key, value)) ==
            Ok(Request(PROTOCOL_V2, key, if shown == [] then None else Some(shown)))
    ensures value[..|value| % 0x10000] == value <==> |value| <= MAX_LEN
  {
    var n := |value| % 0x10000;
    RequestRoundTrip(PROTOCOL_V2, key, value[..n], value[n..]);
    assert JavaRequest(key, value) == EncodedRequest(PROTOCOL_V2, key, value[..n]).value + value[n..];
  }

  /** The value a Java client puts in its request, as the agent sees it. */
  function JavaShown(current: Option<Bytes>): Option<Bytes> {
    if current.Some? && VAULT_BYTES <= current.value && current.value[..|current.value| % 0x10000] != []
    then Some(current.value[..|current.value| % 0x10000])
    else None
  }

  /** The bytes a Java client sends. */
  function JavaMessage(key: Bytes, current: Option<Bytes>): Bytes
    requires |key| <= MAX_LEN
  {
    if current.Some? && VAULT_BYTES <= current.value then JavaRequest(key, current.value)
    else [PROTOCOL_V1] + Field(key)
  }

  /** The part of them that the agent takes for the request. */
  function JavaSeen(key: Bytes, current: Option<Bytes>): Bytes
    requires |key| <= MAX_LEN
  {
    if current.Some? && VAULT_BYTES <= current.value
    then EncodedRequest(PROTOCOL_V2, key, current.value[..|current.value| % 0x10000]).value
    else EncodedRequest(PROTOCOL_V1, key, []).value
  }

  lemma JavaShownWhole(current: Option<Bytes>)
    ensures current.Some? && VAULT_BYTES <= current.value && |current.value| <= MAX_LEN
            ==> JavaShown(current) == current
  {
    if current.Some? && |current.value| <= MAX_LEN {
      assert current.value[..|current.value|] == current.value;
    }
  }

  /** What follows it: the rest of a reference that is out of bounds. */
  function JavaExtra(current: Option<Bytes>): Bytes {
    if current.Some? && VAULT_BYTES <= current.value then current.value[|current.value| % 0x10000..] else []
  }

  lemma SplitValue(head: Bytes, length: Bytes, value: Bytes, n: nat)
    requires n <= |value|
    ensures head + (length + value) == head + (length + value[..n]) + value[n..]
  {
    assert value == value[..n] + value[n..];
  }

  lemma FieldOf(data: Bytes)
    requires |data| <= MAX_LEN
    ensures Field(data) == Be16(|data|) + data
  {
  }

  /** The agent sees all of a request exactly when the reference is within bounds. */
  lemma JavaSeenWhole(key: Bytes, current: Option<Bytes>)
    requires |key| <= MAX_LEN
    ensures JavaMessage(key, current) == JavaSeen(key, current) + JavaExtra(current)
    ensures JavaExtra(current) == []
            <==> !(current.Some? && VAULT_BYTES <= current.value && |current.value| > MAX_LEN)
  {
    if current.Some? && VAULT_BYTES <= current.value {
      hide Field, Be16;
      var value, n := current.value, |current.value| % 0x10000;
      SplitValue([PROTOCOL_V2] + Field(key), Be16(n), value, n);
      FieldOf(value[..n]);
    } else {
      var seen := JavaSeen(key, current);
      assert seen + [] == seen;
    }
  }

  lemma CutSplit(first: Bytes, second: Bytes, n: nat)
    ensures Cut(first + second, n) == if n < |first| then Cut(first, n) else first + Cut(second, n - |first|)
  {
  }

  /** Bytes that follow a request do not change what the handler writes. */
  lemma ServedPrefix(version: byte, key: Bytes, value: Bytes, extra: Bytes, sent: nat, backend: Backend, h: Handled)
    requires Supported(version) && EncodedRequest(version, key, value).Some?
    requires AgreesWithDecoder(Cut(EncodedRequest(version, key, value).value + extra, sent), backend, h)
    ensures h.written ==
            if sent < |EncodedRequest(version, key, value).value| then []
            else Written(Dispatched(backend, key, if version == PROTOCOL_V1 then None else Some(value)))
  {
    var msg := EncodedRequest(version, key, value).value;
    CutSplit(msg, extra, sent);
    if sent < |msg| {
      ServedRequest(version, key, value, sent, backend, h);
    } else {
      RequestRoundTrip(version, key, value, Cut(extra, sent - |msg|));
      assert |msg| >= 3 && msg[0] == version;
      hide EncodedRequest, DecodeRequest, Message, Normal;
    }
  }

  /** What the handler writes for a Java request that arrives whole or cut. */
  lemma JavaServed(key: Bytes, current: Option<Bytes>, sent: nat, backend: Backend, h: Handled)
    requires |key| <= MAX_LEN && AgreesWithDecoder(Cut(JavaMessage(key, current), sent), backend, h)
    ensures h.written == if sent < |JavaSeen(key, current)| then []
                         else Written(Dispatched(backend, key, JavaShown(current)))
  {
    hide AgreesWithDecoder, Cut, JavaMessage, Written;
    var isVault := current.Some? && VAULT_BYTES <= current.value;
    var value := if isVault then current.value[..|current.value| % 0x10000] else [];
    JavaSeenWhole(key, current);
    ServedPrefix(if isVault then PROTOCOL_V2 else PROTOCOL_V1, key, value, JavaExtra(current), sent, backend, h);
  }

  /** The backend's answer for what the agent sees is the direct answer whenever the reference
      is within bounds; beyond them the agent is asked about a prefix of it instead. */
  lemma JavaWithinBounds(backend: Backend, key: Bytes, current: Option<Bytes>)
    requires |key| <= MAX_LEN && current.Some? && VAULT_BYTES <= current.value
    ensures |current.value| <= MAX_LEN ==>
              Fits(Dispatched(backend, key, JavaShown(current))) == Direct(backend, key, current)
    ensures |current.value| > MAX_LEN ==>
              Direct(backend, key, current) == None && JavaShown(current) != current
  {
    JavaShownWhole(current);
  }

  /** Over any link the Java hook gets the backend's answer for what the agent saw, if that
      much of the request and the whole reply get through, and nothing otherwise. */
  method QueryAgentJava(link: Link, backend: Backend, key: Bytes, current: Option<Bytes>) returns (r: Option<Bytes>)
    ensures var reply := Dispatched(backend, key, JavaShown(current));
            r == if |key| <= MAX_LEN && Delivered(link, JavaSeen(key, current), reply) then Fits(reply) else None
    ensures current.Some? && NamesReference(current.value) && |current.value| <= 65535
            ==> var request := EncodedRequest(2, key, current.value);
                var reply := backend.resolveWithValue(key, current.value);
                r == if request.Some? && Delivered(link, request.value, reply)
                        && reply.Value? && |reply.value| <= 65535
                     then Some(reply.value) else None
    ensures !(current.Some? && NamesReference(current.value))
            ==> var request := EncodedRequest(1, key, []);
                var reply := backend.resolve(key);
                r == if request.Some? && Delivered(link, request.value, reply)
                        && reply.Value? && |reply.value| <= 65535
                     then Some(reply.value) else None
  {
    if current.Some? {
      VaultBytes(current.value);
      JavaShownWhole(current);
    }
    if |key| > MAX_LEN {
      return None;
    }
    var isVault := current.Some? && VAULT_BYTES <= current.value;
    var value := if isVault then current.value else [];
    if !link.connects {
      return None;
    }
    var request := if isVault then JavaRequest(key, value) else [PROTOCOL_V1] + Field(key);
    assert request == JavaMessage(key, current);
    var down, h := Exchange(link, request, backend);
    JavaServed(key, current, link.sent, backend, h);
    AnswerOfReply(Dispatched(backend, key, JavaShown(current)), link.received);
    assert Answer([]) == None;
    r := ReadReplyJava(down);
  }
}
