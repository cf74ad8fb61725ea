/** The `vault:<mount>/data/<path>#<key>[#<version>]` reference language: the parser of the
    protocol crate and the printer the Vault backend uses to name cache entries. */
module VaultRefs {
  import opened Common
  import opened Decimal

  const DATA := "/data/"

  datatype VaultRef = VaultRef(mount: string, path: string, key: string, version: Option<u64>)

  // ---------- text search ----------

  predicate Occurs(pat: string, s: string, i: nat) {
    i + |pat| <= |s| && s[i..i + |pat|] == pat
  }

  /** The first position of `c`. */
  function FindChar(s: string, c: char): (r: Option<nat>)
    ensures r.None? ==> c !in s
    ensures r.Some? ==> r.value < |s| && s[r.value] == c && c !in s[..r.value]
  {
    if s == "" then None
    else if s[0] == c then Some(0)
    else match FindChar(s[1..], c)
      case None => None
      case Some(i) =>
        assert s[..i + 1] == [s[0]] + s[1..][..i];
        Some(i + 1)
  }

  /** The first position at or after `i` where `pat` occurs. */
  function FindFrom(pat: string, s: string, i: nat): (r: Option<nat>)
    requires i <= |s|
    ensures r.None? ==> forall j: nat | i <= j :: !Occurs(pat, s, j)
    ensures r.Some? ==> i <= r.value && Occurs(pat, s, r.value)
                        && forall j: nat | i <= j < r.value :: !Occurs(pat, s, j)
    decreases |s| - i
  {
    if Occurs(pat, s, i) then Some(i)
    else if i == |s| then None
    else FindFrom(pat, s, i + 1)
  }

  function FindText(pat: string, s: string): Option<nat> {
    FindFrom(pat, s, 0)
  }

  // ---------- parsing and printing ----------

  datatype Split = Split(mount: string, path: string)

  datatype Tail = Tail(key: string, version: Option<u64>)

  /** `KEY` or `KEY#<u64>`. */
  function ParseTail(tail: string): Option<Tail> {
    if tail == "" then None
    else match FindChar(tail, '#')
      case None => Some(Tail(tail, None))
      case Some(p) =>
        match ParseU64(tail[p + 1..])
        case None => None
        case Some(v) => Some(Tail(tail[..p], Some(v)))
  }

  /** Splits at the first `/data/`, or at the first slash when there is none. */
  function SplitPath(full: string): Option<Split> {
    match FindText(DATA, full)
    case Some(d) => Some(Split(full[..d], full[d + |DATA|..]))
    case None =>
      match FindChar(full, '/')
      case None => None
      case Some(i) => Some(Split(full[..i], full[i + 1..]))
  }

  function ParseRef(s: string): Option<VaultRef> {
    if !(VAULT_PREFIX <= s) then None
    else
      var rest := s[|VAULT_PREFIX|..];
      match FindChar(rest, '#')
      case None => None
      case Some(h) =>
        var tail := ParseTail(rest[h + 1..]);
        var split := SplitPath(rest[..h]);
        if tail.None? || split.None? then None
        else if split.value.mount == "" || split.value.path == "" || tail.value.key == "" then None
        else Some(VaultRef(split.value.mount, split.value.path, tail.value.key, tail.value.version))
  }

  function PrintTail(key: string, version: Option<u64>): string {
    match version
    case None => key
    case Some(v) => key + "#" + PrintU64(v)
  }

  function PrintRef(r: VaultRef): string {
    VAULT_PREFIX + ((r.mount + DATA + r.path) + ("#" + PrintTail(r.key, r.version)))
  }

  // ---------- which references survive printing and parsing ----------

  predicate WellFormedPath(mount: string, path: string) {
    && mount != "" && path != "" && '#' !in mount && '#' !in path
    && FindText(DATA, mount + "/").None?
  }

  predicate WellFormed(r: VaultRef) {
    WellFormedPath(r.mount, r.path) && r.key != "" && '#' !in r.key
  }

  lemma FindCharAfter(a: string, c: char, b: string)
    requires c !in a
    ensures FindChar(a + [c] + b, c) == Some(|a|)
    ensures (a + [c] + b)[..|a|] == a && (a + [c] + b)[|a| + 1..] == b
  {
    var s := a + [c] + b;
    assert s[|a|] == c;
    assert forall j | 0 <= j < |a| :: s[j] == a[j];
    var i := FindChar(s, c).value;
  }

  /** `/data/` overlaps itself in one slash only, so an occurrence that starts inside the
      mount lies within the mount followed by one slash. */
  lemma NoEarlierSegment(mount: string, rest: string, d: nat)
    requires FindText(DATA, mount + "/").None? && d < |mount|
    ensures !Occurs(DATA, mount + DATA + rest, d)
  {
    var full := mount + DATA + rest;
    assert !Occurs(DATA, mount + "/", d);
    if d + |DATA| <= |mount| + 1 {
      assert full[..|mount| + 1] == mount + "/";
      assert full[d..d + |DATA|] == (mount + "/")[d..d + |DATA|];
    } else {
      var j := |mount| - d;
      assert full[d + j] == '/' && DATA[j] != '/';
    }
  }

  lemma SegmentFound(mount: string, rest: string)
    requires FindText(DATA, mount + "/").None?
    ensures FindText(DATA, mount + DATA + rest) == Some(|mount|)
  {
    var full := mount + DATA + rest;
    assert full[|mount|..|mount| + |DATA|] == DATA;
    assert Occurs(DATA, full, |mount|);
    var d := FindText(DATA, full).value;
    if d < |mount| {
      NoEarlierSegment(mount, rest, d);
    }
  }

  lemma SplitPrintedPath(mount: string, path: string)
    requires WellFormedPath(mount, path)
    ensures SplitPath(mount + DATA + path) == Some(Split(mount, path))
  {
    SegmentFound(mount, path);
    var full := mount + DATA + path;
    assert full[..|mount|] == mount && full[|mount| + |DATA|..] == path;
  }

  lemma ParsePrintedTail(key: string, version: Option<u64>)
    requires key != "" && '#' !in key
    ensures ParseTail(PrintTail(key, version)) == Some(Tail(key, version))
  {
    match version
    case None =>
    case Some(v) =>
      FindCharAfter(key, '#', PrintU64(v));
      DecimalRoundTrip(v, "");
      assert PrintTail(key, version) == key + ['#'] + PrintU64(v);
  }

  lemma HashFreePath(mount: string, path: string)
    requires WellFormedPath(mount, path)
    ensures '#' !in mount + DATA + path
  {
  }

  /** Parsing text whose path part is printed depends on the part after the hash only. */
  lemma ParseAfterPath(mount: string, path: string, tail: string)
    requires WellFormedPath(mount, path)
    ensures ParseRef(VAULT_PREFIX + ((mount + DATA + path) + ("#" + tail))) ==
            match ParseTail(tail)
            case None => None
            case Some(Tail(k, v)) => if k == "" then None else Some(VaultRef(mount, path, k, v))
  {
    var full := mount + DATA + path;
    var s := VAULT_PREFIX + (full + ("#" + tail));
    assert VAULT_PREFIX <= s;
    assert s[|VAULT_PREFIX|..] == full + ['#'] + tail;
    HashFreePath(mount, path);
    FindCharAfter(full, '#', tail);
    SplitPrintedPath(mount, path);
  }

  /** What occurs in a part of the text followed by its next character occurs in the text. */
  lemma SegmentWithin(full: string, d: nat, i: nat)
    requires d < |full| && full[d] == '/' && Occurs(DATA, full[..d] + "/", i)
    ensures Occurs(DATA, full, i) && i + |DATA| <= d + 1
  {
    assert full[..d] + "/" == full[..d + 1];
    assert full[i..i + |DATA|] == full[..d + 1][i..i + |DATA|];
  }

  lemma NoSegmentBeforeFirst(full: string, d: nat)
    requires FindText(DATA, full) == Some(d)
    ensures FindText(DATA, full[..d] + "/").None?
  {
    assert full[d] == full[d..d + |DATA|][0];
    var r := FindText(DATA, full[..d] + "/");
    if r.Some? {
      SegmentWithin(full, d, r.value);
    }
  }

  lemma StartsWithSlash(full: string, i: nat)
    requires Occurs(DATA, full, i)
    ensures full[i] == '/'
  {
    assert full[i] == full[i..i + |DATA|][0];
  }

  lemma NoSegmentBeforeSlash(full: string, d: nat)
    requires FindChar(full, '/') == Some(d)
    ensures FindText(DATA, full[..d] + "/").None?
  {
    var r := FindText(DATA, full[..d] + "/");
    if r.Some? {
      SegmentWithin(full, d, r.value);
      StartsWithSlash(full, r.value);
    }
  }

  lemma SplitIsWellFormed(full: string)
    requires '#' !in full && SplitPath(full).Some?
    requires SplitPath(full).value.mount != "" && SplitPath(full).value.path != ""
    ensures WellFormedPath(SplitPath(full).value.mount, SplitPath(full).value.path)
  {
    match FindText(DATA, full)
    case Some(d) => NoSegmentBeforeFirst(full, d);
    case None => NoSegmentBeforeSlash(full, FindChar(full, '/').value);
  }

  /** Every accepted reference has the shape that survives printing, whichever of the two
      path branches produced it. */
  lemma AcceptedIsWellFormed(s: string)
    ensures ParseRef(s).Some? ==> WellFormed(ParseRef(s).value)
  {
    if ParseRef(s).Some? {
      var rest := s[|VAULT_PREFIX|..];
      var h := FindChar(rest, '#').value;
      SplitIsWellFormed(rest[..h]);
    }
  }

  /** Main result on the reference language: printing and parsing undo each other on exactly
      the well-formed references. */
  lemma RefRoundTrip(r: VaultRef)
    ensures ParseRef(PrintRef(r)) == Some(r) <==> WellFormed(r)
  {
    if WellFormed(r) {
      ParsePrintedTail(r.key, r.version);
      ParseAfterPath(r.mount, r.path, PrintTail(r.key, r.version));
    } else if ParseRef(PrintRef(r)) == Some(r) {
      AcceptedIsWellFormed(PrintRef(r));
    }
  }

  // ---------- normal forms ----------

  /** The text is the printed form of what it parses to. */
  predicate NormalForm(s: string) {
    ParseRef(s).Some? && PrintRef(ParseRef(s).value) == s
  }

  /** The text before and after the first hash of an accepted reference. */
  function RefParts(s: string): (string, string)
    requires ParseRef(s).Some?
  {
    var rest := s[|VAULT_PREFIX|..];
    var h := FindChar(rest, '#').value;
    (rest[..h], rest[h + 1..])
  }

  /** Spelled with the `/data/` segment and, if versioned, with a canonical number. */
  predicate SpelledNormally(s: string)
    requires ParseRef(s).Some?
  {
    var (full, tail) := RefParts(s);
    && FindText(DATA, full).Some?
    && match FindChar(tail, '#')
       case None => true
       case Some(p) => Canonical(tail[p + 1..])
  }

  /** Normalising is idempotent and keeps the meaning. */
  lemma NormalizeIdempotent(s: string)
    requires ParseRef(s).Some?
    ensures NormalForm(PrintRef(ParseRef(s).value))
    ensures ParseRef(PrintRef(ParseRef(s).value)) == ParseRef(s)
  {
    AcceptedIsWellFormed(s);
    RefRoundTrip(ParseRef(s).value);
  }

  /** The path part and the part after the first hash can be read off a reference text. */
  lemma RefTextInjective(full: string, tail: string, full': string, tail': string)
    requires '#' !in full && '#' !in full'
    ensures VAULT_PREFIX + (full + ("#" + tail)) == VAULT_PREFIX + (full' + ("#" + tail'))
            <==> full == full' && tail == tail'
  {
    var s, s' := VAULT_PREFIX + (full + ("#" + tail)), VAULT_PREFIX + (full' + ("#" + tail'));
    if s == s' {
      assert s[|VAULT_PREFIX|..] == full + ['#'] + tail;
      assert s'[|VAULT_PREFIX|..] == full' + ['#'] + tail';
      FindCharAfter(full, '#', tail);
      FindCharAfter(full', '#', tail');
    }
  }

  lemma PathSpelling(full: string)
    requires SplitPath(full).Some? && WellFormedPath(SplitPath(full).value.mount, SplitPath(full).value.path)
    ensures SplitPath(full).value.mount + DATA + SplitPath(full).value.path == full
            <==> FindText(DATA, full).Some?
  {
  }

  lemma RejoinAtHash(s: string, h: nat)
    requires VAULT_PREFIX <= s && h < |s[|VAULT_PREFIX|..]| && s[|VAULT_PREFIX|..][h] == '#'
    ensures s == VAULT_PREFIX + (s[|VAULT_PREFIX|..][..h] + ("#" + s[|VAULT_PREFIX|..][h + 1..]))
  {
  }

  lemma TextOfParts(s: string)
    requires ParseRef(s).Some?
    ensures s == VAULT_PREFIX + (RefParts(s).0 + ("#" + RefParts(s).1)) && '#' !in RefParts(s).0
  {
    RejoinAtHash(s, FindChar(s[|VAULT_PREFIX|..], '#').value);
  }

  lemma PartsOfAccepted(s: string)
    requires ParseRef(s).Some?
    ensures var ((full, tail), r) := (RefParts(s), ParseRef(s).value);
            && SplitPath(full) == Some(Split(r.mount, r.path)) && WellFormedPath(r.mount, r.path)
            && '#' !in r.mount + DATA + r.path
            && ParseTail(tail) == Some(Tail(r.key, r.version))
  {
    AcceptedIsWellFormed(s);
    HashFreePath(ParseRef(s).value.mount, ParseRef(s).value.path);
  }

  lemma VersionSpelling(k: string, text: string)
    requires ParseU64(text).Some?
    ensures k + "#" + PrintU64(ParseU64(text).value) == k + "#" + text <==> Canonical(text)
  {
    var printed := PrintU64(ParseU64(text).value);
    DecimalRoundTrip(0, text);
    assert (k + "#" + printed)[|k| + 1..] == printed;
    assert (k + "#" + text)[|k| + 1..] == text;
  }

  lemma TailSpelling(tail: string)
    requires ParseTail(tail).Some?
    ensures var Tail(k, v) := ParseTail(tail).value;
            PrintTail(k, v) == tail <==>
            match FindChar(tail, '#')
            case None => true
            case Some(p) => Canonical(tail[p + 1..])
  {
    match FindChar(tail, '#')
    case None =>
    case Some(p) =>
      VersionSpelling(tail[..p], tail[p + 1..]);
      assert tail == tail[..p] + "#" + tail[p + 1..];
  }

  /** Which spellings are normal forms: a missing `/data/`, `#003` and `#+3` are not. */
  lemma NormalFormSpelling(s: string)
    requires ParseRef(s).Some?
    ensures NormalForm(s) <==> SpelledNormally(s)
  {
    hide ParseRef, SplitPath, ParseTail, RefParts, WellFormedPath;
    var (full, tail) := RefParts(s);
    var r := ParseRef(s).value;
    TextOfParts(s);
    PartsOfAccepted(s);
    PathSpelling(full);
    TailSpelling(tail);
    RefTextInjective(full, tail, r.mount + DATA + r.path, PrintTail(r.key, r.version));
  }

  // ---------- the reference language, without the parser ----------

  /** The mount ends at the first `/data/`; without one, at the first slash. */
  ghost predicate PathText(full: string, mount: string, path: string) {
    || (full == mount + "/data/" + path && forall j: nat | j < |mount| :: !Occurs("/data/", full, j))
    || (full == mount + "/" + path && '/' !in mount && forall j: nat :: !Occurs("/data/", full, j))
  }

  /** A key without a hash, and a version behind a hash if there is one. */
  ghost predicate TailText(tail: string, key: string, version: Option<u64>) {
    && '#' !in key
    && match version
       case None => tail == key
       case Some(v) => exists text :: tail == key + "#" + text && ReadsAs(text, v)
  }

  ghost predicate Denotes(s: string, r: VaultRef) {
    && r.mount != "" && r.path != "" && r.key != ""
    && exists full, tail ::
         && s == "vault:" + (full + ("#" + tail)) && '#' !in full
         && PathText(full, r.mount, r.path) && TailText(tail, r.key, r.version)
  }

  lemma SplitPathJoins(full: string)
    requires SplitPath(full).Some?
    ensures PathText(full, SplitPath(full).value.mount, SplitPath(full).value.path)
  {
    match FindText(DATA, full)
    case Some(d) =>
      assert full == full[..d] + full[d..d + |DATA|] + full[d + |DATA|..];
    case None =>
      var i := FindChar(full, '/').value;
      assert full == full[..i] + [full[i]] + full[i + 1..];
  }

  lemma SplitPathExactly(full: string, mount: string, path: string)
    ensures SplitPath(full) == Some(Split(mount, path)) <==> PathText(full, mount, path)
  {
    if PathText(full, mount, path) {
      if full == mount + "/data/" + path && forall j: nat | j < |mount| :: !Occurs("/data/", full, j) {
        assert full[|mount|..|mount| + |DATA|] == DATA;
        assert Occurs(DATA, full, |mount|);
        assert full[..|mount|] == mount && full[|mount| + |DATA|..] == path;
      } else {
        assert full == mount + ['/'] + path;
        FindCharAfter(mount, '/', path);
      }
    }
    if SplitPath(full) == Some(Split(mount, path)) {
      SplitPathJoins(full);
    }
  }

  lemma VersionedTail(key: string, text: string)
    requires key != "" && '#' !in key
    ensures ParseTail(key + "#" + text) ==
            match ParseU64(text) case None => None case Some(v) => Some(Tail(key, Some(v)))
  {
    hide ParseU64;
    FindCharAfter(key, '#', text);
    assert key + "#" + text == key + ['#'] + text;
  }

  lemma AcceptedTail(tail: string, key: string, version: Option<u64>)
    requires ParseTail(tail) == Some(Tail(key, version))
    ensures TailText(tail, key, version)
  {
    hide ParseU64;
    match FindChar(tail, '#')
    case None =>
    case Some(p) =>
      ParseU64Exactly(tail[p + 1..], version.value);
      assert tail == tail[..p] + "#" + tail[p + 1..];
  }

  lemma ParseTailExactly(tail: string, key: string, version: Option<u64>)
    requires key != ""
    ensures ParseTail(tail) == Some(Tail(key, version)) <==> TailText(tail, key, version)
  {
    if TailText(tail, key, version) {
      match version
      case None =>
      case Some(v) =>
        hide ParseTail, ParseU64, ReadsAs;
        var text :| tail == key + "#" + text && ReadsAs(text, v);
        VersionedTail(key, text);
        ParseU64Exactly(text, v);
    } else if ParseTail(tail) == Some(Tail(key, version)) {
      AcceptedTail(tail, key, version);
    }
  }

  /** Parsing is splitting at the first hash and reading both parts. */
  lemma ParseOfParts(full: string, tail: string, r: VaultRef)
    requires '#' !in full && r.mount != "" && r.path != "" && r.key != ""
    ensures ParseRef("vault:" + (full + ("#" + tail))) == Some(r)
            <==> SplitPath(full) == Some(Split(r.mount, r.path)) && ParseTail(tail) == Some(Tail(r.key, r.version))
  {
    hide SplitPath, ParseTail;
    var s := "vault:" + (full + ("#" + tail));
    assert s[|VAULT_PREFIX|..] == full + ['#'] + tail;
    FindCharAfter(full, '#', tail);
  }

  lemma AcceptedHasParts(s: string)
    requires ParseRef(s).Some?
    ensures var r := ParseRef(s).value; r.mount != "" && r.path != "" && r.key != ""
  {
    hide SplitPath, ParseTail;
  }

  /** Main result on the reference language: a text is parsed to a reference exactly when it
      spells it, by `/data/` or by the first slash alone; every other text is rejected. */
  lemma ParseRefExactly(s: string, r: VaultRef)
    ensures ParseRef(s) == Some(r) <==> Denotes(s, r)
  {
    hide SplitPath, ParseTail, PathText, TailText;
    if Denotes(s, r) {
      hide ParseRef;
      var full, tail :| s == "vault:" + (full + ("#" + tail)) && '#' !in full
                        && PathText(full, r.mount, r.path) && TailText(tail, r.key, r.version);
      SplitPathExactly(full, r.mount, r.path);
      ParseTailExactly(tail, r.key, r.version);
      ParseOfParts(full, tail, r);
    }
    if ParseRef(s) == Some(r) {
      hide ParseRef;
      AcceptedHasParts(s);
      var (full, tail) := RefParts(s);
      TextOfParts(s);
      ParseOfParts(full, tail, r);
      SplitPathExactly(full, r.mount, r.path);
      ParseTailExactly(tail, r.key, r.version);
    }
  }

  lemma NoSegmentWithoutSlash(mount: string, path: string)
    requires '/' !in mount
    ensures forall j: nat | j < |mount| :: !Occurs("/data/", mount + "/data/" + path, j)
  {
    var full := mount + "/data/" + path;
    forall j: nat | j < |mount| ensures !Occurs("/data/", full, j) {
      assert full[j] == mount[j];
      if Occurs("/data/", full, j) {
        StartsWithSlash(full, j);
      }
    }
  }

  /** A reference spelled without `/data/` is read up to the first slash, and names the same
      secret as the spelling with it. */
  lemma SlashSpelling(mount: string, path: string, key: string, version: Option<u64>)
    requires mount != "" && '/' !in mount && '#' !in mount && path != "" && '#' !in path
    requires forall j: nat :: !Occurs("/data/", mount + "/" + path, j)
    requires key != "" && '#' !in key
    ensures ParseRef("vault:" + mount + "/" + path + "#" + PrintTail(key, version)) ==
            Some(VaultRef(mount, path, key, version))
    ensures ParseRef("vault:" + mount + "/data/" + path + "#" + PrintTail(key, version)) ==
            Some(VaultRef(mount, path, key, version))
  {
    hide ParseRef, SplitPath, ParseTail;
    var r, tail, full := VaultRef(mount, path, key, version), PrintTail(key, version), mount + "/" + path;
    ParsePrintedTail(key, version);
    SplitPathExactly(full, mount, path);
    ParseOfParts(full, tail, r);
    assert "vault:" + mount + "/" + path + "#" + tail == "vault:" + (full + ("#" + tail));
    NoSegmentWithoutSlash(mount, path);
    SplitPathExactly(mount + "/data/" + path, mount, path);
    ParseOfParts(mount + "/data/" + path, tail, r);
    assert "vault:" + mount + "/data/" + path + "#" + tail == "vault:" + ((mount + "/data/" + path) + ("#" + tail));
  }
}
