/** The file backend: a JSON file cached with its modification time. The class carries the
    lock-protected sections and the whole call; the file's state at the stat and at the read
    are separate inputs, since the file may change in between. */
module FileBackends {
  import opened Common

  type Data = map<string, string>

  /** JSON parsing, as an arbitrary partial function of the contents. */
  type Parser = string -> Option<Data>

  datatype FileState = Absent | Present(mtime: int, contents: string)

  datatype ReadResult = Text(contents: string) | NotFound | IoError

  datatype Answer = Value(value: Option<string>) | IoFailure | ParseFailure

  datatype Cache = Cache(data: Data, lastModified: Option<int>)

  function Mtime(f: FileState): Option<int> {
    match f case Absent => None case Present(m, _) => Some(m)
  }

  function ReadOf(f: FileState): ReadResult {
    match f case Absent => NotFound case Present(_, c) => Text(c)
  }

  /** The four cases the backend distinguishes amount to "the two times differ". */
  predicate NeedsReload(cached: Option<int>, current: Option<int>)
    ensures NeedsReload(cached, current) <==> cached != current
  {
    match (cached, current)
    case (None, Some(_)) => true
    case (Some(_), None) => true
    case (Some(a), Some(b)) => a != b
    case (None, None) => false
  }

  /** One uninterrupted call: the answer and the cache it leaves. */
  function Resolved(parse: Parser, cache: Cache, key: string, stat: Option<int>, read: ReadResult): (Answer, Cache) {
    if !NeedsReload(cache.lastModified, stat) then (Value(Lookup(cache.data, key)), cache)
    else match read
      case NotFound => (Value(None), Cache(map[], None))
      case IoError => (IoFailure, cache)
      case Text(c) =>
        match parse(c)
        case None => (ParseFailure, cache)
        case Some(d) => (Value(Lookup(d, key)), Cache(d, stat))
  }

  /** The unconditional load of the constructor; `None` means that construction fails. */
  function Loaded(parse: Parser, read: ReadResult, stat: Option<int>): Option<Cache> {
    match read
    case NotFound => Some(Cache(map[], None))
    case IoError => None
    case Text(c) => match parse(c) case None => None case Some(d) => Some(Cache(d, stat))
  }

  class FileBackend {
    var data: Data
    var lastModified: Option<int>

    function Cached(): Cache
      reads this
    {
      Cache(data, lastModified)
    }

    constructor ()
      ensures Cached() == Cache(map[], None)
    {
      data := map[];
      lastModified := None;
    }

    method Reload(parse: Parser, read: ReadResult, stat: Option<int>) returns (ok: bool)
      modifies this
      ensures ok <==> Loaded(parse, read, stat).Some?
      ensures ok ==> Cached() == Loaded(parse, read, stat).value
      ensures !ok ==> Cached() == old(Cached())
      ensures ok <==> read.NotFound? || (read.Text? && parse(read.contents).Some?)
      ensures read.NotFound? ==> data == map[] && lastModified == None
      ensures read.Text? && parse(read.contents).Some?
              ==> data == parse(read.contents).value && lastModified == stat
      ensures read.IoError? || (read.Text? && parse(read.contents).None?)
              ==> data == old(data) && lastModified == old(lastModified)
    {
      match read {
        case NotFound =>
          Clear();
          return true;
        case IoError =>
          return false;
        case Text(contents) =>
          var parsed := parse(contents);
          if parsed.None? {
            return false;
          }
          Store(parsed.value, stat);
          return true;
      }
    }

    method Clear()
      modifies this
      ensures Cached() == Cache(map[], None)
    {
      data := map[];
      lastModified := None;
    }

    method Store(loaded: Data, mtime: Option<int>)
      modifies this
      ensures Cached() == Cache(loaded, mtime)
    {
      data := loaded;
      lastModified := mtime;
    }

    method Resolve(parse: Parser, key: string, stat: Option<int>, read: ReadResult) returns (r: Answer)
      modifies this
      ensures (r, Cached()) == Resolved(parse, old(Cached()), key, stat, read)
      ensures old(lastModified) == stat
              ==> r == Value(Lookup(old(data), key)) && data == old(data) && lastModified == stat
      ensures old(lastModified) != stat && read.NotFound?
              ==> r == Value(None) && data == map[] && lastModified == None
      ensures old(lastModified) != stat && read.IoError?
              ==> r == IoFailure && data == old(data) && lastModified == old(lastModified)
      ensures old(lastModified) != stat && read.Text? && parse(read.contents).None?
              ==> r == ParseFailure && data == old(data) && lastModified == old(lastModified)
      ensures old(lastModified) != stat && read.Text? && parse(read.contents).Some?
              ==> && data == parse(read.contents).value && lastModified == stat
                  && r == Value(Lookup(data, key))
    {
      if NeedsReload(lastModified, stat) {
        match read {
          case NotFound =>
            Clear();
            return Value(None);
          case IoError =>
            return IoFailure;
          case Text(contents) =>
            var parsed := parse(contents);
            if parsed.None? {
              return ParseFailure;
            }
            Store(parsed.value, stat);
        }
      }
      r := Value(Lookup(data, key));
    }
  }

  // ---------- calls made one at a time, the file changing only in between ----------

  datatype Event = Write(file: FileState) | Get(key: string)

  datatype History = History(files: seq<FileState>, cache: Cache)

  /** Reading and parsing the file now, then looking the key up. */
  function Fresh(parse: Parser, f: FileState, key: string): Answer {
    match f
    case Absent => Value(None)
    case Present(_, c) =>
      match parse(c) case None => ParseFailure case Some(d) => Value(Lookup(d, key))
  }

  predicate Loadable(parse: Parser, f: FileState) {
    f.Present? ==> parse(f.contents).Some?
  }

  function AnswerNow(parse: Parser, h: History, key: string): (Answer, Cache)
    requires |h.files| > 0
  {
    var f := h.files[|h.files| - 1];
    Resolved(parse, h.cache, key, Mtime(f), ReadOf(f))
  }

  function After(parse: Parser, first: FileState, events: seq<Event>): (h: History)
    requires Loadable(parse, first)
    ensures |h.files| > 0
  {
    if events == [] then History([first], Loaded(parse, ReadOf(first), Mtime(first)).value)
    else
      var h := After(parse, first, events[..|events| - 1]);
      match events[|events| - 1]
      case Write(f) => h.(files := h.files + [f])
      case Get(key) => h.(cache := AnswerNow(parse, h, key).1)
  }

  ghost predicate AlwaysFresh(parse: Parser, first: FileState, events: seq<Event>)
    requires Loadable(parse, first)
  {
    forall n, key | 0 <= n <= |events| ::
      var h := After(parse, first, events[..n]);
      AnswerNow(parse, h, key).0 == Fresh(parse, h.files[|h.files| - 1], key)
  }

  /** A version that parsed is never followed by one with the same modification time but a
      different parse. */
  ghost predicate HonestMtimes(parse: Parser, files: seq<FileState>) {
    forall i, k | 0 <= i < k < |files| && files[i].Present? && files[k].Present?
                  && files[i].mtime == files[k].mtime && parse(files[i].contents).Some? ::
      parse(files[k].contents) == parse(files[i].contents)
  }

  /** The cache is empty and unstamped, or holds the parse of a version with its stamp. */
  ghost predicate Consistent(parse: Parser, h: History) {
    match h.cache.lastModified
    case None => h.cache.data == map[]
    case Some(m) =>
      exists i :: 0 <= i < |h.files| && h.files[i].Present? && h.files[i].mtime == m
                  && parse(h.files[i].contents) == Some(h.cache.data)
  }

  lemma {:induction false} SequentialInvariant(parse: Parser, first: FileState, events: seq<Event>)
    requires Loadable(parse, first)
    ensures Consistent(parse, After(parse, first, events))
    ensures first == After(parse, first, events).files[0]
  {
    var h' := After(parse, first, events);
    if events == [] {
      assert h'.files[0] == first;
    } else {
      SequentialInvariant(parse, first, events[..|events| - 1]);
      var h := After(parse, first, events[..|events| - 1]);
      var n := |h.files| - 1;
      if h.cache.lastModified.Some? {
        var i :| 0 <= i < |h.files| && h.files[i].Present? && h.files[i].mtime == h.cache.lastModified.value
                 && parse(h.files[i].contents) == Some(h.cache.data);
        assert h'.files[i] == h.files[i];
      }
      assert h'.files[n] == h.files[n];
    }
  }

  /** A call that cannot parse the file reports it and leaves the cache as it was. */
  lemma FailedParseTouchesNothing(parse: Parser, first: FileState, events: seq<Event>, key: string)
    requires Loadable(parse, first) && HonestMtimes(parse, After(parse, first, events).files)
    ensures var h := After(parse, first, events);
            var f := h.files[|h.files| - 1];
            f.Present? && parse(f.contents).None? ==> AnswerNow(parse, h, key) == (ParseFailure, h.cache)
  {
    SequentialInvariant(parse, first, events);
  }

  lemma HonestAnswersAreFresh(parse: Parser, first: FileState, events: seq<Event>, key: string)
    requires Loadable(parse, first) && HonestMtimes(parse, After(parse, first, events).files)
    ensures var h := After(parse, first, events);
            AnswerNow(parse, h, key).0 == Fresh(parse, h.files[|h.files| - 1], key)
  {
    SequentialInvariant(parse, first, events);
  }

  lemma {:induction false} EarlierFiles(parse: Parser, first: FileState, events: seq<Event>, n: nat)
    requires Loadable(parse, first) && n <= |events|
    ensures After(parse, first, events[..n]).files <= After(parse, first, events).files
  {
    if n < |events| {
      EarlierFiles(parse, first, events[..|events| - 1], n);
      assert events[..|events| - 1][..n] == events[..n];
    } else {
      assert events[..n] == events;
    }
  }

  function Writes(files: seq<FileState>): seq<Event> {
    seq(|files|, i requires 0 <= i < |files| => Write(files[i]))
  }

  lemma AfterWrite(parse: Parser, first: FileState, events: seq<Event>, f: FileState)
    requires Loadable(parse, first)
    ensures var h := After(parse, first, events);
            After(parse, first, events + [Write(f)]) == h.(files := h.files + [f])
  {
    assert (events + [Write(f)])[..|events|] == events;
  }

  lemma {:induction false} AfterWrites(parse: Parser, first: FileState, events: seq<Event>, files: seq<FileState>)
    requires Loadable(parse, first)
    ensures var h := After(parse, first, events);
            After(parse, first, events + Writes(files)) == History(h.files + files, h.cache)
  {
    hide After;
    var all := events + Writes(files);
    if files == [] {
      assert all == events;
      assert After(parse, first, events).files + files == After(parse, first, events).files;
    } else {
      var front := files[..|files| - 1];
      AfterWrites(parse, first, events, front);
      assert all == (events + Writes(front)) + [Write(files[|files| - 1])];
      AfterWrite(parse, first, events + Writes(front), files[|files| - 1]);
      assert After(parse, first, events).files + files ==
             After(parse, first, events).files + front + [files[|files| - 1]];
    }
  }

  ghost function DifferingKey(a: Data, b: Data): (key: string)
    requires a != b
    ensures Lookup(a, key) != Lookup(b, key)
  {
    assert exists k :: Lookup(a, k) != Lookup(b, k) by {
      if forall k :: Lookup(a, k) == Lookup(b, k) {
        assert forall k :: k in a <==> Lookup(a, k).Some?;
        assert forall k :: k in b <==> Lookup(b, k).Some?;
        assert forall k | k in a :: Some(a[k]) == Lookup(a, k) == Lookup(b, k) == Some(b[k]);
      }
    }
    var k :| Lookup(a, k) != Lookup(b, k);
    k
  }

  lemma FirstFile(parse: Parser, files: seq<FileState>)
    requires |files| > 0 && Loadable(parse, files[0])
    ensures After(parse, files[0], []).files == files[..1]
  {
  }

  lemma AfterGet(parse: Parser, first: FileState, events: seq<Event>, key: string)
    requires Loadable(parse, first)
    ensures var h := After(parse, first, events);
            After(parse, first, events + [Get(key)]) == History(h.files, AnswerNow(parse, h, key).1)
  {
    assert (events + [Get(key)])[..|events|] == events;
  }

  lemma WriteUpTo(parse: Parser, files: seq<FileState>, events: seq<Event>, i: nat, k: nat)
    requires i <= k < |files| && Loadable(parse, files[0])
    requires After(parse, files[0], events).files == files[..i + 1]
    ensures After(parse, files[0], events + Writes(files[i + 1..k + 1])) ==
            History(files[..k + 1], After(parse, files[0], events).cache)
  {
    hide After, Writes;
    AfterWrites(parse, files[0], events, files[i + 1..k + 1]);
    assert files[..i + 1] + files[i + 1..k + 1] == files[..k + 1];
  }

  /** Writes up to version `i`, one call, writes up to version `k`, then the rest. */
  lemma TwoCallSchedule(parse: Parser, files: seq<FileState>, i: nat, k: nat)
    returns (toI: seq<Event>, toK: seq<Event>, events: seq<Event>)
    requires |files| > 0 && Loadable(parse, files[0]) && i < k < |files|
    ensures toI <= events && toK <= events
    ensures After(parse, files[0], toI).files == files[..i + 1]
    ensures After(parse, files[0], toK) ==
            History(files[..k + 1], AnswerNow(parse, After(parse, files[0], toI), "").1)
    ensures After(parse, files[0], events).files == files
  {
    hide After, Writes, Resolved, Loaded;
    FirstFile(parse, files);
    toI := [] + Writes(files[1..i + 1]);
    WriteUpTo(parse, files, [], 0, i);
    var got := toI + [Get("")];
    AfterGet(parse, files[0], toI, "");
    toK := got + Writes(files[i + 1..k + 1]);
    WriteUpTo(parse, files, got, i, k);
    events := toK + Writes(files[k + 1..|files|]);
    WriteUpTo(parse, files, toK, k, |files| - 1);
    assert files[..|files|] == files;
  }

  lemma NotFreshAt(parse: Parser, first: FileState, events: seq<Event>, prefix: seq<Event>, key: string)
    requires Loadable(parse, first) && prefix <= events
    requires var h := After(parse, first, prefix);
             AnswerNow(parse, h, key).0 != Fresh(parse, h.files[|h.files| - 1], key)
    ensures !AlwaysFresh(parse, first, events)
  {
    assert events[..|prefix|] == prefix;
  }

  lemma StampedCacheIsStale(parse: Parser, h: History, key: string)
    requires h.files != [] && h.files[|h.files| - 1].Present?
    requires h.cache.lastModified == Some(h.files[|h.files| - 1].mtime)
    requires var now := parse(h.files[|h.files| - 1].contents);
             now.Some? ==> Lookup(now.value, key) != Lookup(h.cache.data, key)
    ensures AnswerNow(parse, h, key).0 != Fresh(parse, h.files[|h.files| - 1], key)
  {
  }

  lemma CallCachesTheFile(parse: Parser, h: History)
    requires h.files != [] && h.files[|h.files| - 1].Present?
    requires parse(h.files[|h.files| - 1].contents).Some?
    requires h.cache.lastModified == Some(h.files[|h.files| - 1].mtime)
             ==> h.cache.data == parse(h.files[|h.files| - 1].contents).value
    ensures AnswerNow(parse, h, "").1 ==
            Cache(parse(h.files[|h.files| - 1].contents).value, Some(h.files[|h.files| - 1].mtime))
  {
  }

  /** A stamp that repeats with different contents is answered from the older contents. */
  lemma DishonestScheduleIsStale(parse: Parser, files: seq<FileState>, i: nat, k: nat) returns (events: seq<Event>)
    requires |files| > 0 && Loadable(parse, files[0])
    requires i < k < |files| && files[i].Present? && files[k].Present? && files[i].mtime == files[k].mtime
    requires parse(files[i].contents).Some? && parse(files[k].contents) != parse(files[i].contents)
    ensures After(parse, files[0], events).files == files
    ensures !AlwaysFresh(parse, files[0], events)
  {
    hide After, AlwaysFresh, Resolved, Fresh;
    var stale := parse(files[i].contents).value;
    var toI, toK;
    toI, toK, events := TwoCallSchedule(parse, files, i, k);
    var h := After(parse, files[0], toI);
    if h.cache.lastModified == Some(files[i].mtime) && h.cache.data != stale {
      var key := DifferingKey(h.cache.data, stale);
      StampedCacheIsStale(parse, h, key);
      NotFreshAt(parse, files[0], events, toI, key);
    } else {
      CallCachesTheFile(parse, h);
      var now := parse(files[k].contents);
      var key := if now.Some? then DifferingKey(stale, now.value) else "";
      StampedCacheIsStale(parse, After(parse, files[0], toK), key);
      NotFreshAt(parse, files[0], events, toK, key);
    }
  }

  /** Main result: when the file changes only between calls, every call answers from the file
      as it is now, for every schedule of calls, exactly when modification times are honest. */
  lemma SequentialRefinement(parse: Parser, files: seq<FileState>)
    requires |files| > 0 && Loadable(parse, files[0])
    ensures HonestMtimes(parse, files)
            <==> forall events | After(parse, files[0], events).files == files :: AlwaysFresh(parse, files[0], events)
  {
    if HonestMtimes(parse, files) {
      forall events | After(parse, files[0], events).files == files
        ensures AlwaysFresh(parse, files[0], events)
      {
        forall n, key | 0 <= n <= |events|
          ensures var h := After(parse, files[0], events[..n]);
                  AnswerNow(parse, h, key).0 == Fresh(parse, h.files[|h.files| - 1], key)
        {
          EarlierFiles(parse, files[0], events, n);
          HonestAnswersAreFresh(parse, files[0], events[..n], key);
        }
      }
    } else {
      var i: nat, k: nat :| i < k < |files| && files[i].Present? && files[k].Present?
                 && files[i].mtime == files[k].mtime && parse(files[i].contents).Some?
                 && parse(files[k].contents) != parse(files[i].contents);
      var events := DishonestScheduleIsStale(parse, files, i, k);
    }
  }
}
