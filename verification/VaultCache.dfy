/** The Vault backend's cache: entries for every key of a fetched secret, stored under the
    printed reference of each key and looked up under the raw text of the request. */
module VaultCache {
  import opened Common
  import opened Decimal
  import opened VaultRefs

  /** What one Vault read is addressed to. */
  datatype SecretId = SecretId(mount: string, path: string, version: Option<u64>)

  type Secret = map<string, string>

  datatype CacheEntry = CacheEntry(value: string, expiresAt: nat)

  datatype Outcome = Answer(value: Option<string>) | ParseError | ReadError

  function IdOf(r: VaultRef): SecretId {
    SecretId(r.mount, r.path, r.version)
  }

  function RefTo(id: SecretId, name: string): VaultRef {
    VaultRef(id.mount, id.path, name, id.version)
  }

  /** The text an entry for key `name` of secret `id` is stored under. */
  function CacheKey(id: SecretId, name: string): string {
    PrintRef(RefTo(id, name))
  }

  predicate ValidId(id: SecretId) {
    WellFormedPath(id.mount, id.path)
  }

  // ---------- what a cache key means when it is parsed ----------

  predicate PlainName(name: string) {
    name != "" && '#' !in name
  }

  /** The name itself ends in what the parser takes for a version: `a#3`. */
  predicate LooksVersioned(name: string) {
    match FindChar(name, '#')
    case None => false
    case Some(p) => p > 0 && ParseU64(name[p + 1..]).Some?
  }

  /** Storing key `name` of secret `id` cannot be mistaken for a different reference. */
  predicate SafeName(id: SecretId, name: string) {
    id.version.Some? || !LooksVersioned(name)
  }

  lemma HashNameUnreadable(name: string, v: u64)
    requires '#' in name
    ensures ParseTail(PrintTail(name, Some(v))).None?
  {
    var p := FindChar(name, '#').value;
    var tail := PrintTail(name, Some(v));
    assert name == name[..p] + ['#'] + name[p + 1..];
    assert tail == name[..p] + ['#'] + (name[p + 1..] + "#" + PrintU64(v));
    FindCharAfter(name[..p], '#', name[p + 1..] + "#" + PrintU64(v));
    var text := name[p + 1..] + "#" + PrintU64(v);
    var n := |name[p + 1..]|;
    assert text[n] == '#';
    if |text| > 1 && text[0] == '+' {
      assert text[1..][n - 1] == '#';
    }
  }

  /** The exact condition under which an entry is only ever found by a request for the very
      key, secret and version it was fetched for. */
  lemma CacheKeyMeaning(id: SecretId, name: string)
    requires ValidId(id)
    ensures SafeName(id, name)
            <==> ParseRef(CacheKey(id, name)) in {None, Some(RefTo(id, name))}
    ensures PlainName(name) ==> SafeName(id, name)
    ensures PlainName(name) ==> ParseRef(CacheKey(id, name)) == Some(RefTo(id, name))
  {
    ParseAfterPath(id.mount, id.path, PrintTail(name, id.version));
    if id.version.Some? && '#' in name {
      HashNameUnreadable(name, id.version.value);
    } else if PlainName(name) {
      ParsePrintedTail(name, id.version);
    } else if id.version.Some? {
      FindCharAfter(name, '#', PrintU64(id.version.value));
      assert PrintTail(name, id.version) == name + ['#'] + PrintU64(id.version.value);
    }
  }

  /** What a misfiled entry is taken for: the part of its name before the hash, at the
      version its name ends in. */
  lemma MisfiledMeaning(id: SecretId, name: string)
    requires ValidId(id) && !SafeName(id, name)
    ensures var p := FindChar(name, '#').value;
            ParseRef(CacheKey(id, name)) ==
            Some(VaultRef(id.mount, id.path, name[..p], ParseU64(name[p + 1..])))
  {
    ParseAfterPath(id.mount, id.path, PrintTail(name, id.version));
  }

  lemma CacheKeyInjective(id: SecretId, a: string, b: string)
    ensures CacheKey(id, a) == CacheKey(id, b) <==> a == b
  {
    var head := VAULT_PREFIX + ((id.mount + DATA + id.path) + "#");
    var suffix := match id.version case None => "" case Some(v) => "#" + PrintU64(v);
    assert CacheKey(id, a) == head + (a + suffix);
    assert CacheKey(id, b) == head + (b + suffix);
    if CacheKey(id, a) == CacheKey(id, b) {
      assert (head + (a + suffix))[|head|..] == a + suffix;
      assert (head + (b + suffix))[|head|..] == b + suffix;
      assert a == (a + suffix)[..|a|];
      assert b == (b + suffix)[..|b|];
    }
  }

  lemma CacheKeysDistinct(id: SecretId)
    ensures forall a, b {:trigger CacheKey(id, a), CacheKey(id, b)} ::
              CacheKey(id, a) == CacheKey(id, b) ==> a == b
  {
    forall a, b ensures CacheKey(id, a) == CacheKey(id, b) ==> a == b {
      CacheKeyInjective(id, a, b);
    }
  }

  // ---------- lookup and fill ----------

  /** A live entry answers; an expired or missing one does not. */
  function Hit(cache: map<string, CacheEntry>, text: string, now: nat): Option<string> {
    if text in cache && cache[text].expiresAt > now then Some(cache[text].value) else None
  }

  /** One item per key of secret `id`, under the texts they are cached by. */
  function Named<E>(id: SecretId, items: map<string, E>): (r: map<string, E>)
    ensures forall k | k in items :: CacheKey(id, k) in r && r[CacheKey(id, k)] == items[k]
    ensures forall s | s in r :: exists k :: k in items && s == CacheKey(id, k)
  {
    CacheKeysDistinct(id);
    map k | k in items :: CacheKey(id, k) := items[k]
  }

  /** The cache after one item per key of secret `id` has been stored. */
  function InsertAll<E>(cache: map<string, E>, id: SecretId, items: map<string, E>): (r: map<string, E>)
    ensures forall k | k in items :: CacheKey(id, k) in r && r[CacheKey(id, k)] == items[k]
    ensures forall s | s in cache :: s in r
    ensures forall s | s in r ::
              (s in cache && r[s] == cache[s]) || exists k :: k in items && s == CacheKey(id, k)
  {
    cache + Named(id, items)
  }

  lemma NameOneMore<E>(id: SecretId, items: map<string, E>, k: string, item: E)
    ensures Named(id, items)[CacheKey(id, k) := item] == Named(id, items[k := item])
  {
    hide CacheKey, Named;
    CacheKeysDistinct(id);
    var l, r, more := Named(id, items)[CacheKey(id, k) := item], Named(id, items[k := item]), items[k := item];
    forall s | s in l ensures s in r && r[s] == l[s] {
      if s == CacheKey(id, k) {
        assert k in more;
      } else {
        var j :| j in items && s == CacheKey(id, j);
        assert j in more;
      }
    }
    forall s | s in r ensures s in l {
      var j :| j in more && s == CacheKey(id, j);
    }
  }

  lemma InsertOneMore<E>(cache: map<string, E>, id: SecretId, items: map<string, E>, k: string, item: E)
    ensures InsertAll(cache, id, items)[CacheKey(id, k) := item] == InsertAll(cache, id, items[k := item])
  {
    hide CacheKey, Named;
    NameOneMore(id, items, k, item);
    assert (cache + Named(id, items))[CacheKey(id, k) := item] == cache + Named(id, items)[CacheKey(id, k) := item];
  }

  lemma InsertNone<E>(cache: map<string, E>, id: SecretId)
    ensures InsertAll(cache, id, map[]) == cache
  {
  }

  function Entries(secret: Secret, expiresAt: nat): map<string, CacheEntry> {
    map k | k in secret :: CacheEntry(secret[k], expiresAt)
  }

  lemma EntriesFromAll(secret: Secret, expiresAt: nat, stored: map<string, CacheEntry>)
    requires stored.Keys == secret.Keys
    requires forall k | k in stored :: stored[k] == CacheEntry(secret[k], expiresAt)
    ensures stored == Entries(secret, expiresAt)
  {
  }

  /** One uninterrupted call: what it returns and the cache it leaves. */
  function Resolved(cache: map<string, CacheEntry>, ttl: nat, text: string, lookupAt: nat, read: Option<Secret>,
                    fillAt: nat): (Outcome, map<string, CacheEntry>)
  {
    match ParseRef(text)
    case None => (ParseError, cache)
    case Some(r) =>
      if Hit(cache, text, lookupAt).Some? then (Answer(Hit(cache, text, lookupAt)), cache)
      else match read
        case None => (ReadError, cache)
        case Some(secret) =>
          (Answer(Lookup(secret, r.key)), InsertAll(cache, IdOf(r), Entries(secret, fillAt + ttl)))
  }

  class VaultBackend {
    var cache: map<string, CacheEntry>
    const cacheTtl: nat

    constructor (cacheTtl: nat)
      ensures cache == map[] && this.cacheTtl == cacheTtl
    {
      this.cache := map[];
      this.cacheTtl := cacheTtl;
    }

    /** The write-locked section: every key of the secret is stored with one expiry, in
        whatever order the hash map yields them. */
    method FillSiblings(id: SecretId, secret: Secret, now: nat)
      modifies this`cache
      ensures cache == InsertAll(old(cache), id, Entries(secret, now + cacheTtl))
    {
      hide CacheKey, InsertAll, Named, Entries;
      var expiresAt := now + cacheTtl;
      var pending := secret.Keys;
      ghost var stored: map<string, CacheEntry> := map[];
      InsertNone(cache, id);
      while pending != {}
        invariant pending <= secret.Keys
        invariant stored.Keys == secret.Keys - pending
        invariant forall k | k in stored :: stored[k] == CacheEntry(secret[k], expiresAt)
        invariant cache == InsertAll(old(cache), id, stored)
      {
        var k :| k in pending;
        InsertOneMore(old(cache), id, stored, k, CacheEntry(secret[k], expiresAt));
        cache := cache[CacheKey(id, k) := CacheEntry(secret[k], expiresAt)];
        stored := stored[k := CacheEntry(secret[k], expiresAt)];
        pending := pending - {k};
      }
      EntriesFromAll(secret, expiresAt, stored);
    }

    /** One uninterrupted call: the lookup happens at `lookupAt`; on a miss `read` is what
        Vault answers and the fill happens at `fillAt`. */
    method ResolveWithValue(text: string, lookupAt: nat, read: Option<Secret>, fillAt: nat)
      returns (r: Outcome)
      modifies this`cache
      ensures ParseRef(text).None? ==> r == ParseError && cache == old(cache)
      ensures ParseRef(text).Some? && Hit(old(cache), text, lookupAt).Some?
              ==> r == Answer(Hit(old(cache), text, lookupAt)) && cache == old(cache)
      ensures ParseRef(text).Some? && Hit(old(cache), text, lookupAt).None? && read.None?
              ==> r == ReadError && cache == old(cache)
      ensures ParseRef(text).Some? && Hit(old(cache), text, lookupAt).None? && read.Some?
              ==> && r == Answer(Lookup(read.value, ParseRef(text).value.key))
                  && cache == InsertAll(old(cache), IdOf(ParseRef(text).value),
                                        Entries(read.value, fillAt + cacheTtl))
      ensures (r, cache) == Resolved(old(cache), cacheTtl, text, lookupAt, read, fillAt)
    {
      var parsed := ParseRef(text);
      if parsed.None? {
        return ParseError;
      }
      if text in cache && cache[text].expiresAt > lookupAt {
        return Answer(Some(cache[text].value));
      }
      if read.None? {
        return ReadError;
      }
      FillSiblings(IdOf(parsed.value), read.value, fillAt);
      return Answer(Lookup(read.value, parsed.value.key));
    }
  }
}
