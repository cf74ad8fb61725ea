/** What every run of the file machine guarantees: once the file is stable and older calls
    have finished, later calls answer from it exactly when no old modification time can have
    come back with it; and what an undisturbed call and a mistimed load do. */
module FileTheorems {
  import opened Common
  import opened FileBackends
  import opened FileMachine

  // ---------- once the file is stable ----------

  /** No version stamped like version `n` could have been cached with other contents: every
      version a call could have paired with that stamp parses to what version `n` does. */
  ghost predicate NoStampReuse(parse: Parser, files: seq<FileState>, load: Load, n: nat)
    requires n < |files|
  {
    forall i: nat, j: nat |
      i < |files| && j < |files| && Pairable(files, load, i, j)
      && files[n].Present? && files[i].Present? && files[i].mtime == files[n].mtime
      && files[j].Present? && parse(files[j].contents).Some? ::
      Meaning(parse, files[j]) == Meaning(parse, files[n])
  }

  predicate StatsSucceed(actions: seq<Action>) {
    forall i | 0 <= i < |actions| :: !actions[i].StatFails?
  }

  predicate Drained(st: State)
    requires st.files != []
  {
    forall q | q in st.calls && !st.calls[q].phase.Done? :: st.calls[q].start == Current(st)
  }

  /** A later call that obtained a time and is past its check or has an answer: it agrees with
      the file's data `d`. */
  predicate Agrees(st: State, q: nat, d: Data)
    requires q in st.calls
  {
    st.calls[q].stat.Some? ==>
      && (st.calls[q].phase.Ready? ==> st.cache.data == d)
      && (st.calls[q].phase.Done? && st.calls[q].phase.answer.Value? ==>
            st.calls[q].phase.answer.value == Lookup(d, st.calls[q].key))
  }

  /** Calls outside `base` are the later ones. */
  ghost predicate Settled(parse: Parser, st: State, load: Load, files: seq<FileState>, d: Data, base: set<nat>)
    requires files != []
  {
    && st.files == files && Inv(parse, st, load) && Drained(st)
    && forall q | q in st.calls && q !in base :: Agrees(st, q, d)
  }

  lemma SettledCheck(parse: Parser, st: State, load: Load, files: seq<FileState>, d: Data, q: nat)
    requires files != [] && Inv(parse, st, load) && Drained(st) && st.files == files
    requires files[|files| - 1].Present? && parse(files[|files| - 1].contents) == Some(d)
    requires NoStampReuse(parse, files, load, |files| - 1)
    requires q in st.calls && st.calls[q].phase.Statted? && st.calls[q].stat.Some?
    requires st.cache.lastModified == st.calls[q].stat
    ensures st.cache.data == d
  {
  }

  lemma SettledStore(parse: Parser, st: State, load: Load, files: seq<FileState>, d: Data, q: nat)
    requires files != [] && Inv(parse, st, load) && Drained(st) && st.files == files
    requires files[|files| - 1].Present? && parse(files[|files| - 1].contents) == Some(d)
    requires q in st.calls && (st.calls[q].phase.Gone? || st.calls[q].phase.Fetched?)
    ensures st.calls[q].phase == Fetched(d)
  {
  }

  lemma BegunIsCurrent(parse: Parser, st: State, a: Action)
    requires st.files != [] && !a.WriteFile?
    ensures forall q | q in Step(parse, st, a).calls && q !in st.calls ::
              Step(parse, st, a).calls[q].start == Current(st)
  {
  }

  lemma AgreesStep(parse: Parser, st: State, load: Load, files: seq<FileState>, d: Data, base: set<nat>,
                   a: Action, q: nat)
    requires files != [] && Settled(parse, st, load, files, d, base)
    requires files[|files| - 1].Present? && parse(files[|files| - 1].contents) == Some(d)
    requires NoStampReuse(parse, files, load, |files| - 1)
    requires !a.WriteFile? && q in Step(parse, st, a).calls && q !in base
    ensures Agrees(Step(parse, st, a), q, d)
  {
    hide NoStampReuse, GoodCache, GoodPeers, GoodCall;
    StepFrame(parse, st, a);
    hide Inv;
    assert q in st.calls ==> Agrees(st, q, d);
    if a.q in st.calls && st.calls[a.q].phase.Statted? && st.calls[a.q].stat.Some?
       && st.cache.lastModified == st.calls[a.q].stat {
      SettledCheck(parse, st, load, files, d, a.q);
    }
    if a.Store? && a.q in st.calls && (st.calls[a.q].phase.Gone? || st.calls[a.q].phase.Fetched?) {
      SettledStore(parse, st, load, files, d, a.q);
    }
  }

  lemma SettledStep(parse: Parser, st: State, load: Load, files: seq<FileState>, d: Data, base: set<nat>, a: Action)
    requires files != [] && Settled(parse, st, load, files, d, base)
    requires files[|files| - 1].Present? && parse(files[|files| - 1].contents) == Some(d)
    requires NoStampReuse(parse, files, load, |files| - 1)
    requires !a.WriteFile?
    ensures Settled(parse, Step(parse, st, a), load, files, d, base)
  {
    hide NoStampReuse, GoodCache, GoodPeers, GoodCall, Step, Agrees;
    StepPreservesInv(parse, st, load, a);
    StepFrame(parse, st, a);
    hide Inv;
    var st' := Step(parse, st, a);
    assert Drained(st') by {
      BegunIsCurrent(parse, st, a);
    }
    forall q | q in st'.calls && q !in base ensures Agrees(st', q, d) {
      AgreesStep(parse, st, load, files, d, base, a, q);
    }
  }

  lemma SettledFiles(parse: Parser, st: State, load: Load, files: seq<FileState>, d: Data, base: set<nat>)
    requires files != [] && Settled(parse, st, load, files, d, base)
    ensures st.files == files
  {
  }

  lemma {:induction false} SettledRun(parse: Parser, st: State, load: Load, files: seq<FileState>, d: Data,
                                      base: set<nat>, actions: seq<Action>)
    requires files != [] && Settled(parse, st, load, files, d, base)
    requires files[|files| - 1].Present? && parse(files[|files| - 1].contents) == Some(d)
    requires NoStampReuse(parse, files, load, |files| - 1)
    requires Run(parse, st, actions).files == files
    ensures Settled(parse, Run(parse, st, actions), load, files, d, base)
  {
    hide Settled, NoStampReuse, Step;
    SettledFiles(parse, st, load, files, d, base);
    if actions == [] {
    } else {
      var before, a := actions[..|actions| - 1], actions[|actions| - 1];
      FilesGrow(parse, st, before);
      RunSnoc(parse, Run(parse, st, before), [], a);
      assert [] + [a] == [a];
      FilesGrow(parse, Run(parse, st, before), [a]);
      assert Run(parse, st, before).files == files;
      SettledRun(parse, st, load, files, d, base, before);
      if a.WriteFile? {
        WriteStep(parse, Run(parse, st, before), a.file);
      }
      SettledStep(parse, Run(parse, st, before), load, files, d, base, a);
    }
  }

  /** Call `q` begins after every call from before the last write has finished, obtains a
      modification time and an answer, and the file does not change meanwhile. */
  predicate LaterAnswer(parse: Parser, files: seq<FileState>, load: Load, before: seq<Action>, after: seq<Action>,
                        q: nat)
    requires ValidLoad(parse, files, load)
  {
    var drained := Run(parse, Initial(parse, files, load), before);
    var end := Run(parse, drained, after);
    && drained.files == files && Drained(drained) && end.files == files
    && q !in drained.calls && q in end.calls && end.calls[q].stat.Some?
    && end.calls[q].phase.Done? && end.calls[q].phase.answer.Value?
  }

  function AnswerOf(parse: Parser, files: seq<FileState>, load: Load, before: seq<Action>, after: seq<Action>,
                    q: nat): Option<string>
    requires ValidLoad(parse, files, load) && LaterAnswer(parse, files, load, before, after, q)
  {
    Run(parse, Run(parse, Initial(parse, files, load), before), after).calls[q].phase.answer.value
  }

  function KeyOf(parse: Parser, files: seq<FileState>, load: Load, before: seq<Action>, after: seq<Action>,
                 q: nat): string
    requires ValidLoad(parse, files, load) && LaterAnswer(parse, files, load, before, after, q)
  {
    Run(parse, Run(parse, Initial(parse, files, load), before), after).calls[q].key
  }

  lemma LaterCallsAnswerFromTheFile(parse: Parser, files: seq<FileState>, load: Load, before: seq<Action>,
                                    after: seq<Action>, q: nat)
    requires ValidLoad(parse, files, load) && files[|files| - 1].Present?
    requires parse(files[|files| - 1].contents).Some?
    requires NoStampReuse(parse, files, load, |files| - 1)
    requires LaterAnswer(parse, files, load, before, after, q)
    ensures AnswerOf(parse, files, load, before, after, q) ==
            Lookup(parse(files[|files| - 1].contents).value, KeyOf(parse, files, load, before, after, q))
  {
    hide NoStampReuse, GoodCache, GoodCall, GoodPeers;
    var init := Initial(parse, files, load);
    var drained := Run(parse, init, before);
    var d := parse(files[|files| - 1].contents).value;
    InitialInv(parse, files, load);
    RunPreservesInv(parse, init, load, before);
    assert Settled(parse, drained, load, files, d, drained.calls.Keys);
    SettledRun(parse, drained, load, files, d, drained.calls.Keys, after);
    assert Agrees(Run(parse, drained, after), q, d);
  }

  // ---------- the condition is exact ----------

  lemma StampedCallStarts(parse: Parser, st: State, q: nat, key: string) returns (actions: seq<Action>)
    requires st.files != [] && q !in st.calls
    ensures var end := Run(parse, st, actions);
            && end.files == st.files && end.cache == st.cache && end.calls.Keys == st.calls.Keys + {q}
            && end.calls[q].phase == Statted && end.calls[q].stat == Mtime(st.files[Current(st)])
            && end.calls[q].key == key && end.calls[q].start == Current(st) && end.calls[q].statOk
            && end.blind == st.blind && end.calls[q].peers == Unfinished(st.calls)
            && forall z | z in st.calls :: end.calls[z] == st.calls[z]
    ensures StatsSucceed(actions)
  {
    actions := [] + [Begin(q, key)] + [Stat(q)];
    RunSnoc(parse, st, [], Begin(q, key));
    RunSnoc(parse, st, [] + [Begin(q, key)], Stat(q));
  }

  /** One undisturbed call whose stat matches the cached time. */
  lemma CachedCall(parse: Parser, st: State, q: nat, key: string) returns (actions: seq<Action>)
    requires st.files != [] && q !in st.calls
    requires st.cache.lastModified == Mtime(st.files[Current(st)])
    ensures var end := Run(parse, st, actions);
            && end.files == st.files && q in end.calls && end.calls[q].key == key
            && end.calls[q].stat == Mtime(st.files[Current(st)]) && end.calls[q].statOk
            && end.calls[q].start == Current(st) && end.calls[q].peers == Unfinished(st.calls)
            && end.calls[q].phase == Done(Value(Lookup(st.cache.data, key)))
    ensures StatsSucceed(actions)
  {
    actions := StampedCallStarts(parse, st, q, key);
    var s2 := Run(parse, st, actions);
    RunSnoc(parse, st, actions, Check(q));
    RunSnoc(parse, st, actions + [Check(q)], Look(q));
    assert Step(parse, s2, Check(q)) == Put(s2, q, s2.calls[q].(phase := Ready));
    actions := actions + [Check(q)] + [Look(q)];
  }

  /** A reload after the check: read, store, look. */
  lemma ReloadEnds(parse: Parser, st: State, q: nat) returns (actions: seq<Action>)
    requires st.files != [] && q in st.calls && st.calls[q].phase == Reloading
    requires st.files[Current(st)].Present? && parse(st.files[Current(st)].contents).Some?
    ensures var end := Run(parse, st, actions);
            && end.files == st.files && end.calls.Keys == st.calls.Keys && end.calls[q].phase.Done?
            && end.cache == Cache(parse(st.files[Current(st)].contents).value, st.calls[q].stat)
            && forall z | z in st.calls && z != q :: end.calls[z] == st.calls[z]
    ensures StatsSucceed(actions)
  {
    var d := parse(st.files[Current(st)].contents).value;
    var s1, s2, s3 := Step(parse, st, Read(q)), Step(parse, Step(parse, st, Read(q)), Store(q)),
                      Step(parse, Step(parse, Step(parse, st, Read(q)), Store(q)), Look(q));
    RunSnoc(parse, st, [], Read(q));
    RunSnoc(parse, st, [] + [Read(q)], Store(q));
    RunSnoc(parse, st, [] + [Read(q)] + [Store(q)], Look(q));
    actions := [] + [Read(q)] + [Store(q)] + [Look(q)];
    assert s1.calls == st.calls[q := st.calls[q].(phase := Fetched(d), readAt := Current(st))];
    assert s2.calls == s1.calls[q := s1.calls[q].(phase := Ready)];
    assert s2.cache == Cache(d, st.calls[q].stat);
    OthersUntouched(parse, s2, Look(q));
  }

  lemma BlindCallStarts(parse: Parser, st: State, q: nat, key: string) returns (actions: seq<Action>)
    requires st.files != [] && q !in st.calls
    ensures var end := Run(parse, st, actions);
            && end.files == st.files && end.cache == st.cache && end.calls.Keys == st.calls.Keys + {q}
            && end.calls[q].phase == Statted && end.calls[q].stat == None && end.calls[q].key == key
            && forall z | z in st.calls :: end.calls[z] == st.calls[z]
  {
    actions := [] + [Begin(q, key)] + [StatFails(q)];
    RunSnoc(parse, st, [], Begin(q, key));
    RunSnoc(parse, st, [] + [Begin(q, key)], StatFails(q));
  }

  /** A call whose stat fails leaves the cache unstamped, whatever it held. */
  lemma BlindCall(parse: Parser, st: State, q: nat) returns (actions: seq<Action>)
    requires st.files != [] && q !in st.calls && st.files[Current(st)].Present?
    requires parse(st.files[Current(st)].contents).Some?
    ensures var end := Run(parse, st, actions);
            && end.files == st.files && end.cache.lastModified == None
            && end.calls.Keys == st.calls.Keys + {q} && end.calls[q].phase.Done?
            && forall z | z in st.calls :: end.calls[z] == st.calls[z]
  {
    hide Step;
    actions := BlindCallStarts(parse, st, q, "");
    var s1 := Run(parse, st, actions);
    CheckStep(parse, s1, q);
    RunSnoc(parse, st, actions, Check(q));
    actions := actions + [Check(q)];
    var s2 := Run(parse, st, actions);
    if s2.calls[q].phase == Reloading {
      var rest := ReloadEnds(parse, s2, q);
      RunAppend(parse, st, actions, rest);
      actions := actions + rest;
    } else {
      LookStep(parse, s2, q);
      RunSnoc(parse, st, actions, Look(q));
      actions := actions + [Look(q)];
    }
  }

  lemma StampedCallEnds(parse: Parser, st: State, q: nat) returns (actions: seq<Action>)
    requires st.files != [] && q in st.calls && st.calls[q].phase == Statted && st.calls[q].stat.Some?
    requires st.cache.lastModified == None && st.files[Current(st)].Present?
    requires parse(st.files[Current(st)].contents).Some?
    ensures var end := Run(parse, st, actions);
            && end.files == st.files && end.calls.Keys == st.calls.Keys && end.calls[q].phase.Done?
            && end.cache == Cache(parse(st.files[Current(st)].contents).value, st.calls[q].stat)
            && forall z | z in st.calls && z != q :: end.calls[z] == st.calls[z]
  {
    RunSnoc(parse, st, [], Check(q));
    var s1 := Run(parse, st, [] + [Check(q)]);
    assert s1 == Put(st, q, st.calls[q].(phase := Reloading));
    var rest := ReloadEnds(parse, s1, q);
    RunAppend(parse, st, [] + [Check(q)], rest);
    actions := [] + [Check(q)] + rest;
  }

  lemma Advance(parse: Parser, st: State, files: seq<FileState>, from: nat, to: nat)
    requires from <= to < |files| && st.files == files[..from + 1]
    ensures Run(parse, st, FileWrites(files[from + 1..to + 1])) == st.(files := files[..to + 1])
  {
    RunWrites(parse, st, files[from + 1..to + 1]);
    assert files[..from + 1] + files[from + 1..to + 1] == files[..to + 1];
  }

  lemma PairCachedLate(parse: Parser, files: seq<FileState>, init: State, begun: seq<Action>, i: nat, j: nat)
    returns (before: seq<Action>)
    requires init.files != [] && i <= j < |files|
    requires files[i].Present? && files[j].Present? && parse(files[j].contents).Some?
    requires var st := Run(parse, init, begun);
             && st.files == files[..i + 1] && st.calls.Keys == {0}
             && st.calls[0].phase == Statted && st.calls[0].stat == Mtime(files[i])
    ensures var st := Run(parse, init, before);
            && st.files == files && (forall q | q in st.calls :: st.calls[q].phase.Done?)
            && 2 !in st.calls
            && st.cache == Cache(parse(files[j].contents).value, Mtime(files[i]))
  {
    hide Step, FileWrites;
    var n := |files| - 1;
    assert files[..n + 1] == files;
    var more := FileWrites(files[i + 1..j + 1]);
    Advance(parse, Run(parse, init, begun), files, i, j);
    RunAppend(parse, init, begun, more);
    before := begun + more;
    more := BlindCall(parse, Run(parse, init, before), 1);
    RunAppend(parse, init, before, more);
    before := before + more;
    more := StampedCallEnds(parse, Run(parse, init, before), 0);
    RunAppend(parse, init, before, more);
    before := before + more;
    more := FileWrites(files[j + 1..n + 1]);
    Advance(parse, Run(parse, init, before), files, j, n);
    RunAppend(parse, init, before, more);
    before := before + more;
  }

  /** A run that ends, drained, with version `j`'s data cached under version `i`'s stamp. */
  lemma PairCached(parse: Parser, files: seq<FileState>, load: Load, i: nat, j: nat) returns (before: seq<Action>)
    requires ValidLoad(parse, files, load) && i < |files| && j < |files| && Pairable(files, load, i, j)
    requires files[i].Present? && files[j].Present? && parse(files[j].contents).Some?
    ensures var st := Run(parse, Initial(parse, files, load), before);
            && st.files == files && (forall q | q in st.calls :: st.calls[q].phase.Done?)
            && 2 !in st.calls
            && st.cache == Cache(parse(files[j].contents).value, Mtime(files[i]))
  {
    hide Step, FileWrites;
    var init, n := Initial(parse, files, load), |files| - 1;
    assert files[..n + 1] == files;
    if load.statAt <= i <= j {
      before := FileWrites(files[load.statAt + 1..i + 1]);
      Advance(parse, init, files, load.statAt, i);
      var s1 := Run(parse, init, before);
      var more := StampedCallStarts(parse, s1, 0, "");
      RunAppend(parse, init, before, more);
      before := before + more;
      before := PairCachedLate(parse, files, init, before, i, j);
    } else {
      before := FileWrites(files[load.statAt + 1..n + 1]);
      Advance(parse, init, files, load.statAt, n);
    }
  }

  lemma StaleLaterAnswer(parse: Parser, files: seq<FileState>, load: Load, i: nat, j: nat)
    returns (before: seq<Action>, after: seq<Action>)
    requires ValidLoad(parse, files, load) && i < |files| && j < |files| && Pairable(files, load, i, j)
    requires files[|files| - 1].Present? && parse(files[|files| - 1].contents).Some?
    requires files[i].Present? && files[i].mtime == files[|files| - 1].mtime
    requires files[j].Present? && parse(files[j].contents).Some?
    requires parse(files[j].contents) != parse(files[|files| - 1].contents)
    ensures LaterAnswer(parse, files, load, before, after, 2)
    ensures AnswerOf(parse, files, load, before, after, 2) !=
            Lookup(parse(files[|files| - 1].contents).value, KeyOf(parse, files, load, before, after, 2))
  {
    hide Step;
    before := PairCached(parse, files, load, i, j);
    var st := Run(parse, Initial(parse, files, load), before);
    var key := DifferingKey(parse(files[j].contents).value, parse(files[|files| - 1].contents).value);
    after := CachedCall(parse, st, 2, key);
  }

  ghost predicate LaterAnswersCurrent(parse: Parser, files: seq<FileState>, load: Load)
    requires ValidLoad(parse, files, load)
    requires files[|files| - 1].Present? && parse(files[|files| - 1].contents).Some?
  {
    forall before, after, q | LaterAnswer(parse, files, load, before, after, q) ::
      AnswerOf(parse, files, load, before, after, q) ==
      Lookup(parse(files[|files| - 1].contents).value, KeyOf(parse, files, load, before, after, q))
  }

  /** Main result: for a given history of the file that ends in a readable version, later
      calls answer from that version in every interleaving exactly when its modification time
      was not used for anything a call could have cached under it. */
  lemma StableFileExactly(parse: Parser, files: seq<FileState>, load: Load)
    requires ValidLoad(parse, files, load)
    requires files[|files| - 1].Present? && parse(files[|files| - 1].contents).Some?
    ensures NoStampReuse(parse, files, load, |files| - 1) <==> LaterAnswersCurrent(parse, files, load)
  {
    var n := |files| - 1;
    if NoStampReuse(parse, files, load, n) {
      forall before, after, q | LaterAnswer(parse, files, load, before, after, q)
        ensures AnswerOf(parse, files, load, before, after, q) ==
                Lookup(parse(files[n].contents).value, KeyOf(parse, files, load, before, after, q))
      {
        LaterCallsAnswerFromTheFile(parse, files, load, before, after, q);
      }
    } else {
      var i: nat, j: nat :|
        i < |files| && j < |files| && Pairable(files, load, i, j)
        && files[n].Present? && files[i].Present? && files[i].mtime == files[n].mtime
        && files[j].Present? && parse(files[j].contents).Some?
        && Meaning(parse, files[j]) != Meaning(parse, files[n]);
      var before, after := StaleLaterAnswer(parse, files, load, i, j);
    }
  }

  // ---------- an undisturbed call is the sequential call ----------

  /** Read, store and lookup of one call, with nothing in between. */
  lemma LoneReload(parse: Parser, st: State, q: nat)
    requires st.files != [] && q in st.calls && st.calls[q].phase.Reloading?
    requires NeedsReload(st.cache.lastModified, st.calls[q].stat)
    ensures var end := Step(parse, Step(parse, Step(parse, st, Read(q)), Store(q)), Look(q));
            var call := st.calls[q];
            var (answer, cache) := Resolved(parse, st.cache, call.key, call.stat, ReadOf(st.files[Current(st)]));
            end.cache == cache && q in end.calls && end.calls[q].phase == Done(answer)
  {
    var s1 := Step(parse, st, Read(q));
    match ReadOf(st.files[Current(st)])
    case NotFound =>
      assert s1.calls[q].phase == Gone;
    case IoError =>
    case Text(c) =>
      match parse(c)
      case None =>
        assert s1.calls[q].phase == Done(ParseFailure);
      case Some(d) =>
        ReadParses(parse, st, q);
        StoreFetched(parse, s1, q);
        LookStep(parse, Step(parse, s1, Store(q)), q);
  }

  lemma FailedRead(parse: Parser, st: State, q: nat)
    requires st.files != [] && q in st.calls && st.calls[q].phase.Reloading?
    ensures Step(parse, st, ReadFails(q)) == Put(st, q, st.calls[q].(phase := Done(IoFailure)))
  {
  }

  /** The steps of a call run back to back do exactly what the class's `Resolve` does, whether
      or not its stat or its read fails. */
  lemma LoneCallIsResolve(parse: Parser, st: State, q: nat, key: string, statFails: bool, readFails: bool)
    returns (actions: seq<Action>)
    requires st.files != [] && q !in st.calls
    ensures var end := Run(parse, st, actions);
            var f := st.files[Current(st)];
            var stat := if statFails then None else Mtime(f);
            var read := if readFails then IoError else ReadOf(f);
            var (answer, cache) := Resolved(parse, st.cache, key, stat, read);
            end.cache == cache && q in end.calls && end.calls[q].phase == Done(answer)
  {
    hide Step;
    if statFails {
      actions := BlindCallStarts(parse, st, q, key);
    } else {
      actions := StampedCallStarts(parse, st, q, key);
    }
    var s2 := Run(parse, st, actions);
    RunSnoc(parse, st, actions, Check(q));
    CheckStep(parse, s2, q);
    var s3 := Step(parse, s2, Check(q));
    if s3.calls[q].phase == Ready {
      RunSnoc(parse, st, actions + [Check(q)], Look(q));
      LookStep(parse, s3, q);
      actions := actions + [Check(q)] + [Look(q)];
    } else if readFails {
      FailedRead(parse, s3, q);
      RunSnoc(parse, st, actions + [Check(q)], ReadFails(q));
      actions := actions + [Check(q)] + [ReadFails(q)];
    } else {
      LoneReload(parse, s3, q);
      RunSnoc(parse, st, actions + [Check(q)], Read(q));
      RunSnoc(parse, st, actions + [Check(q)] + [Read(q)], Store(q));
      RunSnoc(parse, st, actions + [Check(q)] + [Read(q)] + [Store(q)], Look(q));
      actions := actions + [Check(q)] + [Read(q)] + [Store(q)] + [Look(q)];
    }
  }

  // ---------- what the condition means for a file's history ----------

  /** Modification times that are never used twice suffice, provided the file did not change
      inside the constructor's load. */
  lemma DistinctStampsSuffice(parse: Parser, files: seq<FileState>, load: Load)
    requires ValidLoad(parse, files, load) && load.readAt == load.statAt
    requires forall i, k | 0 <= i < k < |files| && files[i].Present? && files[k].Present? ::
               files[i].mtime != files[k].mtime
    ensures NoStampReuse(parse, files, load, |files| - 1)
  {
  }

  /** JSON with the single key `k`. */
  function OneKey(contents: string): Option<Data> {
    Some(map["k" := contents])
  }

  lemma OneKeyInjective(a: string, b: string)
    ensures OneKey(a) == OneKey(b) <==> a == b
  {
    assert OneKey(a).value["k"] == a && OneKey(b).value["k"] == b;
  }

  /** Equal times with equal contents do not suffice: after a, b and a again, with the first
      and third version identical and identically stamped, b can be what later calls are served. */
  lemma HonestTimesAreNotEnough()
    ensures var files := [Present(1, "a"), Present(2, "b"), Present(1, "a")];
            && HonestMtimes(OneKey, files)
            && !NoStampReuse(OneKey, files, Load(0, 0, true), 2)
            && !LaterAnswersCurrent(OneKey, files, Load(0, 0, true))
  {
    hide LaterAnswersCurrent;
    var files := [Present(1, "a"), Present(2, "b"), Present(1, "a")];
    OneKeyInjective("a", "b");
    assert Pairable(files, Load(0, 0, true), 0, 1);
    assert Meaning(OneKey, files[1]) != Meaning(OneKey, files[2]);
    StableFileExactly(OneKey, files, Load(0, 0, true));
  }

  /** While nothing is written and no stat fails, the load is never replaced. */
  ghost predicate LoadServes(st: State, stamp: int, d: Data) {
    && st.cache == Cache(d, Some(stamp))
    && forall q | q in st.calls ::
         match st.calls[q].phase
         case Begun => true
         case Statted => st.calls[q].stat == Some(stamp)
         case Ready => true
         case Done(answer) => answer == Value(Lookup(d, st.calls[q].key))
         case _ => false
  }

  lemma LoadServesStep(parse: Parser, st: State, stamp: int, d: Data, a: Action)
    requires st.files != [] && Mtime(st.files[Current(st)]) == Some(stamp)
    requires LoadServes(st, stamp, d) && !a.WriteFile? && !a.StatFails?
    ensures LoadServes(Step(parse, st, a), stamp, d)
  {
  }

  /** A load whose stat saw the version after the one it read is served for good: until the
      next write, every answer of every run without failing stats is from the version that the
      load read, right or wrong. */
  lemma {:induction false} ChangeInsideLoadIsStale(parse: Parser, files: seq<FileState>, load: Load,
                                                   actions: seq<Action>)
    requires ValidLoad(parse, files, load) && load.statOk && load.statAt == |files| - 1
    requires files[load.readAt].Present? && files[load.statAt].Present?
    requires Run(parse, Initial(parse, files, load), actions).files == files && StatsSucceed(actions)
    ensures var st := Run(parse, Initial(parse, files, load), actions);
            && LoadServes(st, files[load.statAt].mtime, parse(files[load.readAt].contents).value)
            && forall q | q in st.calls && st.calls[q].phase.Done? ::
                 st.calls[q].phase.answer == Value(Lookup(parse(files[load.readAt].contents).value, st.calls[q].key))
  {
    hide Step;
    var init := Initial(parse, files, load);
    if actions == [] {
    } else {
      var before, a := actions[..|actions| - 1], actions[|actions| - 1];
      var st := Run(parse, init, before);
      FilesGrow(parse, init, before);
      RunSnoc(parse, st, [], a);
      assert [] + [a] == [a];
      FilesGrow(parse, st, [a]);
      if a.WriteFile? {
        WriteStep(parse, st, a.file);
      }
      ChangeInsideLoadIsStale(parse, files, load, before);
      LoadServesStep(parse, st, files[load.statAt].mtime, parse(files[load.readAt].contents).value, a);
    }
  }
}
