/** The file backend under concurrency: any number of calls, each taking its stat, its check
    under the read lock, its file read, its store under the write lock and its final lookup as
    separate steps, while writers change the file at any time. A moment is the index of the
    file version current then. A step that is not enabled leaves the state alone. */
module FileMachine {
  import opened Common
  import opened FileBackends

  datatype Phase =
    | Begun
    | Statted
    | Reloading
    | Gone                                    // the read found no file: clear comes next
    | Fetched(data: Data)                     // parsed, not yet stored
    | Ready                                   // final lookup comes next
    | Done(answer: Answer)

  /** `start`, `peers`, `statAt`, `readAt` and `statOk` are history: no step consults them. */
  datatype Call = Call(
    key: string,
    phase: Phase,
    stat: Option<int>,
    statOk: bool,     // the stat did not fail
    start: nat,       // version current when the call began
    peers: set<nat>,  // calls unfinished when it began
    statAt: nat,      // version current at the stat
    readAt: nat)      // version current at the read

  /** Where the cached data came from; history. */
  datatype Source = Source(statAt: nat, readAt: nat)

  /** `blind` (history): data was once stored without a modification time. */
  datatype State = State(files: seq<FileState>, cache: Cache, calls: map<nat, Call>, source: Source, blind: bool)

  datatype Action =
    | WriteFile(file: FileState)
    | Begin(q: nat, key: string)
    | Stat(q: nat)
    | StatFails(q: nat)
    | Check(q: nat)
    | Read(q: nat)
    | ReadFails(q: nat)
    | Store(q: nat)
    | Look(q: nat)

  /** The constructor read version `readAt` and took its stat at version `statAt`. */
  datatype Load = Load(readAt: nat, statAt: nat, statOk: bool)

  predicate ValidLoad(parse: Parser, files: seq<FileState>, load: Load) {
    load.readAt <= load.statAt < |files| && Loadable(parse, files[load.readAt])
  }

  function Initial(parse: Parser, files: seq<FileState>, load: Load): State
    requires ValidLoad(parse, files, load)
  {
    var stat := if load.statOk then Mtime(files[load.statAt]) else None;
    State(files[..load.statAt + 1], Loaded(parse, ReadOf(files[load.readAt]), stat).value, map[],
          Source(load.statAt, load.readAt), files[load.readAt].Present? && stat.None?)
  }

  function Unfinished(calls: map<nat, Call>): set<nat> {
    set q | q in calls && !calls[q].phase.Done?
  }

  function Put(st: State, q: nat, call: Call): State {
    st.(calls := st.calls[q := call])
  }

  function Current(st: State): nat
    requires st.files != []
  {
    |st.files| - 1
  }

  function ReadStep(parse: Parser, st: State, q: nat): State
    requires q in st.calls && st.files != []
  {
    var call := st.calls[q].(readAt := Current(st));
    match ReadOf(st.files[Current(st)])
    case NotFound => Put(st, q, call.(phase := Gone))
    case IoError => Put(st, q, call.(phase := Done(IoFailure)))
    case Text(c) =>
      match parse(c)
      case None => Put(st, q, call.(phase := Done(ParseFailure)))
      case Some(d) => Put(st, q, call.(phase := Fetched(d)))
  }

  function StoreStep(st: State, q: nat): State
    requires q in st.calls && (st.calls[q].phase.Gone? || st.calls[q].phase.Fetched?)
  {
    var call := st.calls[q];
    match call.phase
    case Gone =>
      Put(st, q, call.(phase := Done(Value(None))))
      .(cache := Cache(map[], None), source := Source(call.statAt, call.readAt))
    case Fetched(d) =>
      Put(st, q, call.(phase := Ready))
      .(cache := Cache(d, call.stat), source := Source(call.statAt, call.readAt),
        blind := st.blind || call.stat.None?)
  }

  function Step(parse: Parser, st: State, a: Action): State
    requires st.files != []
    ensures Step(parse, st, a).files != []
  {
    match a
    case WriteFile(f) => st.(files := st.files + [f])
    case Begin(q, key) =>
      if q in st.calls then st
      else Put(st, q, Call(key, Begun, None, true, Current(st), Unfinished(st.calls), 0, 0))
    case Stat(q) =>
      if q in st.calls && st.calls[q].phase.Begun? then
        Put(st, q, st.calls[q].(phase := Statted, stat := Mtime(st.files[Current(st)]), statOk := true,
                                 statAt := Current(st)))
      else st
    case StatFails(q) =>
      if q in st.calls && st.calls[q].phase.Begun? then
        Put(st, q, st.calls[q].(phase := Statted, stat := None, statOk := false, statAt := Current(st)))
      else st
    case Check(q) =>
      if q in st.calls && st.calls[q].phase.Statted? then
        Put(st, q, st.calls[q].(phase :=
              if NeedsReload(st.cache.lastModified, st.calls[q].stat) then Reloading else Ready))
      else st
    case Read(q) =>
      if q in st.calls && st.calls[q].phase.Reloading? then ReadStep(parse, st, q) else st
    case ReadFails(q) =>
      if q in st.calls && st.calls[q].phase.Reloading? then Put(st, q, st.calls[q].(phase := Done(IoFailure))) else st
    case Store(q) =>
      if q in st.calls && (st.calls[q].phase.Gone? || st.calls[q].phase.Fetched?) then StoreStep(st, q) else st
    case Look(q) =>
      if q in st.calls && st.calls[q].phase.Ready? then
        Put(st, q, st.calls[q].(phase := Done(Value(Lookup(st.cache.data, st.calls[q].key)))))
      else st
  }

  function Run(parse: Parser, st: State, actions: seq<Action>): (r: State)
    requires st.files != []
    ensures r.files != []
  {
    if actions == [] then st
    else Step(parse, Run(parse, st, actions[..|actions| - 1]), actions[|actions| - 1])
  }

  // ---------- the invariant ----------

  /** What a reader makes of a version: nothing there reads as no keys. */
  function Meaning(parse: Parser, f: FileState): Option<Data> {
    match f case Absent => Some(map[]) case Present(_, c) => parse(c)
  }

  ghost predicate GoodCall(parse: Parser, files: seq<FileState>, load: Load, call: Call) {
    && load.statAt <= call.start < |files|
    && (!call.phase.Begun? ==>
          && call.start <= call.statAt < |files|
          && (call.statOk ==> call.stat == Mtime(files[call.statAt]))
          && (!call.statOk ==> call.stat == None))
    && (call.phase.Gone? || call.phase.Fetched? ==>
          && call.statAt <= call.readAt < |files|
          && call.phase.Gone? == files[call.readAt].Absent?)
    && (call.phase.Fetched? ==> Meaning(parse, files[call.readAt]) == Some(call.phase.data))
  }

  /** The pairs (stat, read) that can end up side by side in the cache: `resolve` takes its
      stat first, the constructor its read. */
  predicate Pairable(files: seq<FileState>, load: Load, i: nat, j: nat) {
    load.statAt <= i <= j || (i == load.statAt && j == load.readAt && load.statOk)
  }

  ghost predicate GoodCache(parse: Parser, st: State, load: Load) {
    && st.source.readAt < |st.files| && st.source.statAt < |st.files|
    && Meaning(parse, st.files[st.source.readAt]) == Some(st.cache.data)
    && (st.cache.lastModified.Some? ==>
          && Mtime(st.files[st.source.statAt]) == st.cache.lastModified
          && st.files[st.source.readAt].Present?
          && Pairable(st.files, load, st.source.statAt, st.source.readAt))
    && (st.cache.lastModified.None? && !st.blind ==> st.cache.data == map[])
  }

  ghost predicate GoodPeers(st: State) {
    && (forall q, z | q in st.calls && z in st.calls
          && !st.calls[q].phase.Done? && !st.calls[z].phase.Done? ::
          z in st.calls[q].peers || z == q || st.calls[z].start >= st.calls[q].start)
    && (forall q, z | q in st.calls && z in st.calls[q].peers :: z in st.calls)
  }

  ghost predicate Inv(parse: Parser, st: State, load: Load) {
    && load.statAt < |st.files|
    && GoodCache(parse, st, load)
    && (forall q | q in st.calls :: GoodCall(parse, st.files, load, st.calls[q]))
    && GoodPeers(st)
  }

  lemma InitialInv(parse: Parser, files: seq<FileState>, load: Load)
    requires ValidLoad(parse, files, load)
    ensures Inv(parse, Initial(parse, files, load), load)
  {
  }

  lemma WritePreservesInv(parse: Parser, st: State, load: Load, f: FileState)
    requires Inv(parse, st, load) && st.files != []
    ensures Inv(parse, Step(parse, st, WriteFile(f)), load)
  {
  }

  /** A step other than a write concerns one call ... */
  lemma OthersUntouched(parse: Parser, st: State, a: Action)
    requires st.files != [] && !a.WriteFile?
    ensures var st' := Step(parse, st, a);
            && st'.files == st.files
            && st'.calls.Keys == st.calls.Keys + (if a.Begin? then {a.q} else {})
            && (forall q | q in st.calls && q != a.q :: st'.calls[q] == st.calls[q])
            && (!a.Store? ==> st'.cache == st.cache && st'.source == st.source && st'.blind == st.blind)
  {
  }

  /** ... and leaves that call's identity, history and any final answer alone. */
  lemma OwnHistoryKept(parse: Parser, st: State, a: Action)
    requires st.files != [] && !a.WriteFile? && a.q in st.calls
    ensures var (call, st') := (st.calls[a.q], Step(parse, st, a));
            && a.q in st'.calls
            && var call' := st'.calls[a.q];
               && call'.start == call.start && call'.peers == call.peers && call'.key == call.key
               && (call.phase.Done? ==> call' == call)
               && (!call.phase.Begun? ==> call'.stat == call.stat && call'.statAt == call.statAt
                                          && call'.statOk == call.statOk)
  {
  }

  lemma StepFrame(parse: Parser, st: State, a: Action)
    requires st.files != [] && !a.WriteFile?
    ensures var st' := Step(parse, st, a);
            && st'.files == st.files
            && st'.calls.Keys == st.calls.Keys + (if a.Begin? then {a.q} else {})
            && (forall q | q in st.calls && q != a.q :: st'.calls[q] == st.calls[q])
            && (forall q | q in st.calls ::
                  && st'.calls[q].start == st.calls[q].start
                  && st'.calls[q].peers == st.calls[q].peers && st'.calls[q].key == st.calls[q].key
                  && (st.calls[q].phase.Done? ==> st'.calls[q] == st.calls[q])
                  && (!st.calls[q].phase.Begun? ==>
                        && st'.calls[q].stat == st.calls[q].stat
                        && st'.calls[q].statAt == st.calls[q].statAt
                        && st'.calls[q].statOk == st.calls[q].statOk))
            && (!a.Store? ==> st'.cache == st.cache && st'.source == st.source && st'.blind == st.blind)
  {
    hide Step;
    OthersUntouched(parse, st, a);
    if a.q in st.calls {
      OwnHistoryKept(parse, st, a);
    }
  }

  lemma StepKeepsPeers(parse: Parser, st: State, a: Action)
    requires st.files != [] && !a.WriteFile? && GoodPeers(st)
    requires forall q | q in st.calls :: st.calls[q].start < |st.files|
    ensures GoodPeers(Step(parse, st, a))
  {
    StepFrame(parse, st, a);
    var st' := Step(parse, st, a);
    if a.Begin? && a.q !in st.calls {
      assert st'.calls[a.q].peers == Unfinished(st.calls);
      assert st'.calls[a.q].start == Current(st);
    }
  }

  lemma StepKeepsCallsGood(parse: Parser, st: State, load: Load, a: Action)
    requires st.files != [] && !a.WriteFile? && load.statAt < |st.files|
    requires forall q | q in st.calls :: GoodCall(parse, st.files, load, st.calls[q])
    ensures var st' := Step(parse, st, a);
            forall q | q in st'.calls :: GoodCall(parse, st'.files, load, st'.calls[q])
  {
  }

  lemma StepKeepsCacheGood(parse: Parser, st: State, load: Load, a: Action)
    requires st.files != [] && !a.WriteFile? && Inv(parse, st, load)
    ensures GoodCache(parse, Step(parse, st, a), load)
  {
  }

  lemma StepPreservesInv(parse: Parser, st: State, load: Load, a: Action)
    requires Inv(parse, st, load) && st.files != []
    ensures Inv(parse, Step(parse, st, a), load)
  {
    hide Step, GoodCache, GoodPeers;
    if a.WriteFile? {
      WritePreservesInv(parse, st, load, a.file);
    } else {
      StepFrame(parse, st, a);
      StepKeepsPeers(parse, st, a);
      StepKeepsCallsGood(parse, st, load, a);
      StepKeepsCacheGood(parse, st, load, a);
    }
  }

  lemma {:induction false} RunPreservesInv(parse: Parser, st: State, load: Load, actions: seq<Action>)
    requires Inv(parse, st, load) && st.files != []
    ensures Inv(parse, Run(parse, st, actions), load)
  {
    if actions == [] {
    } else {
      var before := actions[..|actions| - 1];
      RunPreservesInv(parse, st, load, before);
      StepPreservesInv(parse, Run(parse, st, before), load, actions[|actions| - 1]);
    }
  }

  // ---------- composing runs ----------

  lemma RunSnoc(parse: Parser, st: State, actions: seq<Action>, a: Action)
    requires st.files != []
    ensures Run(parse, st, actions + [a]) == Step(parse, Run(parse, st, actions), a)
  {
  }

  lemma {:induction false} RunAppend(parse: Parser, st: State, first: seq<Action>, second: seq<Action>)
    requires st.files != []
    ensures Run(parse, st, first + second) == Run(parse, Run(parse, st, first), second)
  {
    hide Step;
    if second == [] {
      assert first + second == first;
    } else {
      var front, a := second[..|second| - 1], second[|second| - 1];
      RunAppend(parse, st, first, front);
      assert first + second == (first + front) + [a];
      RunSnoc(parse, st, first + front, a);
    }
  }

  function FileWrites(files: seq<FileState>): seq<Action> {
    seq(|files|, i requires 0 <= i < |files| => WriteFile(files[i]))
  }

  lemma {:induction false} RunWrites(parse: Parser, st: State, files: seq<FileState>)
    requires st.files != []
    ensures Run(parse, st, FileWrites(files)) == st.(files := st.files + files)
  {
    if files == [] {
      assert st.files + files == st.files;
    } else {
      var front, f := files[..|files| - 1], files[|files| - 1];
      RunWrites(parse, st, front);
      assert FileWrites(files) == FileWrites(front) + [WriteFile(f)];
      RunSnoc(parse, st, FileWrites(front), WriteFile(f));
      assert st.files + files == st.files + front + [f];
    }
  }

  lemma StepGrowsFiles(parse: Parser, st: State, a: Action)
    requires st.files != []
    ensures st.files <= Step(parse, st, a).files
  {
    hide ReadStep;
    if !a.WriteFile? {
      OthersUntouched(parse, st, a);
    }
  }

  lemma {:induction false} FilesGrow(parse: Parser, st: State, actions: seq<Action>)
    requires st.files != []
    ensures st.files <= Run(parse, st, actions).files
  {
    if actions == [] {
    } else {
      var before, a := actions[..|actions| - 1], actions[|actions| - 1];
      FilesGrow(parse, st, before);
      if !a.WriteFile? {
        OthersUntouched(parse, Run(parse, st, before), a);
      }
    }
  }

  // ---------- single steps ----------

  lemma WriteStep(parse: Parser, st: State, f: FileState)
    requires st.files != []
    ensures Step(parse, st, WriteFile(f)) == st.(files := st.files + [f])
  {
  }

  lemma CheckStep(parse: Parser, st: State, q: nat)
    requires st.files != [] && q in st.calls && st.calls[q].phase.Statted?
    ensures Step(parse, st, Check(q)) == Put(st, q, st.calls[q].(phase :=
              if st.cache.lastModified != st.calls[q].stat then Reloading else Ready))
  {
  }

  lemma ReadParses(parse: Parser, st: State, q: nat)
    requires st.files != [] && q in st.calls && st.calls[q].phase.Reloading?
    requires st.files[Current(st)].Present? && parse(st.files[Current(st)].contents).Some?
    ensures Step(parse, st, Read(q)) == Put(st, q, st.calls[q].(
              phase := Fetched(parse(st.files[Current(st)].contents).value), readAt := Current(st)))
  {
  }

  lemma StoreFetched(parse: Parser, st: State, q: nat)
    requires st.files != [] && q in st.calls && st.calls[q].phase.Fetched?
    ensures var (call, st') := (st.calls[q], Step(parse, st, Store(q)));
            && st'.files == st.files && st'.calls == st.calls[q := call.(phase := Ready)]
            && st'.cache == Cache(call.phase.data, call.stat)
            && st'.blind == (st.blind || call.stat.None?)
  {
  }

  lemma LookStep(parse: Parser, st: State, q: nat)
    requires st.files != [] && q in st.calls && st.calls[q].phase.Ready?
    ensures Step(parse, st, Look(q)) ==
            Put(st, q, st.calls[q].(phase := Done(Value(Lookup(st.cache.data, st.calls[q].key)))))
  {
  }
}
