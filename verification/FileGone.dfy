/** When the file has gone: later calls answer that there is nothing, unless data with keys was
    ever stored without a modification time. */
module FileGone {
  import opened Common
  import opened FileBackends
  import opened FileMachine
  import opened FileTheorems

  /** The constructor stored keys without a modification time. */
  predicate UnstampedLoad(parse: Parser, files: seq<FileState>, load: Load)
    requires ValidLoad(parse, files, load)
  {
    && files[load.readAt].Present? && parse(files[load.readAt].contents) != Some(map[])
    && (load.statOk ==> files[load.statAt].Absent?)
  }

  /** A call whose stat at version `i` gave no time can store the keys of version `k`; with
      `failing`, stats may fail while the file is there. */
  predicate UnstampedPair(parse: Parser, files: seq<FileState>, load: Load, failing: bool, i: nat, k: nat) {
    && load.statAt <= i <= k < |files| && (failing || files[i].Absent?)
    && files[k].Present? && parse(files[k].contents).Some? && parse(files[k].contents) != Some(map[])
  }

  ghost predicate NeverUnstamped(parse: Parser, files: seq<FileState>, load: Load, failing: bool)
    requires ValidLoad(parse, files, load)
  {
    !UnstampedLoad(parse, files, load) && forall i, k :: !UnstampedPair(parse, files, load, failing, i, k)
  }

  /** Without a modification time nothing is cached. */
  predicate EmptyUnlessStamped(st: State, failing: bool) {
    && (st.cache.lastModified.None? ==> st.cache.data == map[])
    && (!failing ==> forall q | q in st.calls :: st.calls[q].statOk)
  }

  lemma StepKeepsEmpty(parse: Parser, st: State, load: Load, files: seq<FileState>, failing: bool, a: Action)
    requires ValidLoad(parse, files, load) && NeverUnstamped(parse, files, load, failing)
    requires st.files != [] && st.files <= files && Inv(parse, st, load)
    requires EmptyUnlessStamped(st, failing) && (failing || !a.StatFails?)
    ensures EmptyUnlessStamped(Step(parse, st, a), failing)
  {
    hide GoodCache, GoodPeers, UnstampedLoad;
    if a.Store? && a.q in st.calls && st.calls[a.q].phase.Fetched? {
      var call := st.calls[a.q];
      assert GoodCall(parse, st.files, load, call);
      assert files[call.statAt] == st.files[call.statAt] && files[call.readAt] == st.files[call.readAt];
      assert !UnstampedPair(parse, files, load, failing, call.statAt, call.readAt);
    }
    hide UnstampedPair, GoodCall;
  }

  lemma {:induction false} RunKeepsEmpty(parse: Parser, files: seq<FileState>, load: Load, failing: bool,
                                         actions: seq<Action>)
    requires ValidLoad(parse, files, load) && NeverUnstamped(parse, files, load, failing)
    requires Run(parse, Initial(parse, files, load), actions).files <= files
    requires failing || StatsSucceed(actions)
    ensures EmptyUnlessStamped(Run(parse, Initial(parse, files, load), actions), failing)
  {
    hide Step, Inv, UnstampedPair;
    var init := Initial(parse, files, load);
    if actions == [] {
    } else {
      hide NeverUnstamped, EmptyUnlessStamped;
      var before, a := actions[..|actions| - 1], actions[|actions| - 1];
      var st := Run(parse, init, before);
      RunSnoc(parse, st, [], a);
      assert [] + [a] == [a];
      FilesGrow(parse, st, [a]);
      RunKeepsEmpty(parse, files, load, failing, before);
      InitialInv(parse, files, load);
      RunPreservesInv(parse, init, load, before);
      StepKeepsEmpty(parse, st, load, files, failing, a);
    }
  }

  // ---------- once the file has gone ----------

  /** A later call whose stat succeeded finds nothing. */
  predicate FindsNothing(st: State, q: nat)
    requires q in st.calls
  {
    st.calls[q].statOk ==>
      && (st.calls[q].phase.Ready? ==> st.cache.data == map[])
      && (st.calls[q].phase.Done? && st.calls[q].phase.answer.Value? ==> st.calls[q].phase.answer.value == None)
  }

  /** Calls outside `base` are the later ones. */
  ghost predicate Emptied(parse: Parser, st: State, load: Load, files: seq<FileState>, failing: bool, base: set<nat>)
    requires files != []
  {
    && st.files == files && Inv(parse, st, load) && Drained(st) && EmptyUnlessStamped(st, failing)
    && forall q | q in st.calls && q !in base :: FindsNothing(st, q)
  }

  lemma UnfinishedSeesNothing(parse: Parser, st: State, load: Load, files: seq<FileState>, q: nat)
    requires files != [] && files[|files| - 1].Absent?
    requires st.files == files && Inv(parse, st, load) && Drained(st)
    requires q in st.calls && !st.calls[q].phase.Done?
    ensures st.calls[q].phase.Statted? ==> st.calls[q].stat == None
    ensures !st.calls[q].phase.Fetched?
  {
    assert GoodCall(parse, st.files, load, st.calls[q]);
  }

  lemma FindsNothingStep(parse: Parser, st: State, load: Load, files: seq<FileState>, failing: bool, base: set<nat>,
                         a: Action, q: nat)
    requires files != [] && files[|files| - 1].Absent? && Emptied(parse, st, load, files, failing, base)
    requires !a.WriteFile? && q in Step(parse, st, a).calls && q !in base
    ensures FindsNothing(Step(parse, st, a), q)
  {
    hide Inv;
    OthersUntouched(parse, st, a);
    assert q in st.calls ==> FindsNothing(st, q);
    if a.q in st.calls && !st.calls[a.q].phase.Done? {
      UnfinishedSeesNothing(parse, st, load, files, a.q);
    }
    hide Drained;
  }

  lemma EmptiedStep(parse: Parser, st: State, load: Load, files: seq<FileState>, failing: bool, base: set<nat>,
                    a: Action)
    requires ValidLoad(parse, files, load) && NeverUnstamped(parse, files, load, failing)
    requires files[|files| - 1].Absent? && Emptied(parse, st, load, files, failing, base)
    requires !a.WriteFile? && (failing || !a.StatFails?)
    ensures Emptied(parse, Step(parse, st, a), load, files, failing, base)
  {
    hide Step, Inv, NeverUnstamped, EmptyUnlessStamped, FindsNothing;
    StepPreservesInv(parse, st, load, a);
    StepFrame(parse, st, a);
    StepKeepsEmpty(parse, st, load, files, failing, a);
    var st' := Step(parse, st, a);
    assert Drained(st') by {
      BegunIsCurrent(parse, st, a);
    }
    forall q | q in st'.calls && q !in base ensures FindsNothing(st', q) {
      FindsNothingStep(parse, st, load, files, failing, base, a, q);
    }
  }

  lemma EmptiedFiles(parse: Parser, st: State, load: Load, files: seq<FileState>, failing: bool, base: set<nat>)
    requires files != [] && Emptied(parse, st, load, files, failing, base)
    ensures st.files == files
  {
  }

  lemma {:induction false} EmptiedRun(parse: Parser, st: State, load: Load, files: seq<FileState>, failing: bool,
                                      base: set<nat>, actions: seq<Action>)
    requires ValidLoad(parse, files, load) && NeverUnstamped(parse, files, load, failing)
    requires files[|files| - 1].Absent? && Emptied(parse, st, load, files, failing, base)
    requires Run(parse, st, actions).files == files && (failing || StatsSucceed(actions))
    ensures Emptied(parse, Run(parse, st, actions), load, files, failing, base)
  {
    hide Emptied, NeverUnstamped, Step;
    EmptiedFiles(parse, st, load, files, failing, base);
    if actions == [] {
    } else {
      var before, a := actions[..|actions| - 1], actions[|actions| - 1];
      FilesGrow(parse, st, before);
      RunSnoc(parse, Run(parse, st, before), [], a);
      assert [] + [a] == [a];
      FilesGrow(parse, Run(parse, st, before), [a]);
      assert Run(parse, st, before).files == files;
      EmptiedRun(parse, st, load, files, failing, base, before);
      if a.WriteFile? {
        WriteStep(parse, Run(parse, st, before), a.file);
      }
      EmptiedStep(parse, Run(parse, st, before), load, files, failing, base, a);
    }
  }

  /** Call `q` begins after every call from before the last write has finished, its stat
      succeeds, and it gets an answer while the file does not change. */
  predicate LaterGoneAnswer(parse: Parser, files: seq<FileState>, load: Load, failing: bool, before: seq<Action>,
                            after: seq<Action>, q: nat)
    requires ValidLoad(parse, files, load)
  {
    var drained := Run(parse, Initial(parse, files, load), before);
    var end := Run(parse, drained, after);
    && drained.files == files && Drained(drained) && end.files == files
    && q !in drained.calls && q in end.calls && end.calls[q].statOk
    && end.calls[q].phase.Done? && end.calls[q].phase.answer.Value?
    && (failing || (StatsSucceed(before) && StatsSucceed(after)))
  }

  /** Every such answer is that the key is not there. */
  ghost predicate LaterAnswersNothing(parse: Parser, files: seq<FileState>, load: Load, failing: bool)
    requires ValidLoad(parse, files, load)
  {
    forall before, after, q | LaterGoneAnswer(parse, files, load, failing, before, after, q) ::
      Run(parse, Run(parse, Initial(parse, files, load), before), after).calls[q].phase.answer.value == None
  }

  lemma GoneForLaterCalls(parse: Parser, files: seq<FileState>, load: Load, failing: bool, before: seq<Action>,
                          after: seq<Action>, q: nat)
    requires ValidLoad(parse, files, load) && files[|files| - 1].Absent?
    requires NeverUnstamped(parse, files, load, failing)
    requires LaterGoneAnswer(parse, files, load, failing, before, after, q)
    ensures Run(parse, Run(parse, Initial(parse, files, load), before), after).calls[q].phase.answer.value == None
  {
    hide NeverUnstamped, GoodCache, GoodCall, GoodPeers;
    var init := Initial(parse, files, load);
    var drained := Run(parse, init, before);
    InitialInv(parse, files, load);
    RunPreservesInv(parse, init, load, before);
    RunKeepsEmpty(parse, files, load, failing, before);
    assert Emptied(parse, drained, load, files, failing, drained.calls.Keys);
    EmptiedRun(parse, drained, load, files, failing, drained.calls.Keys, after);
    assert FindsNothing(Run(parse, drained, after), q);
  }

  // ---------- the condition is exact ----------

  lemma StatsSucceedAppend(first: seq<Action>, second: seq<Action>)
    requires StatsSucceed(first) && StatsSucceed(second)
    ensures StatsSucceed(first + second)
  {
  }

  lemma WritesSucceed(files: seq<FileState>)
    ensures StatsSucceed(FileWrites(files))
  {
  }

  /** A call that begins, and whose stat at this version gives no time. */
  lemma TimelessStat(parse: Parser, st: State, q: nat, failing: bool) returns (actions: seq<Action>)
    requires st.files != [] && q !in st.calls && (failing || st.files[Current(st)].Absent?)
    ensures var end := Run(parse, st, actions);
            && end.files == st.files && end.cache == st.cache && end.calls.Keys == st.calls.Keys + {q}
            && end.calls[q].phase == Statted && end.calls[q].stat == None
            && (forall z | z in st.calls :: end.calls[z] == st.calls[z])
    ensures failing || StatsSucceed(actions)
  {
    var stat := if failing then StatFails(q) else Stat(q);
    actions := [] + [Begin(q, "")] + [stat];
    RunSnoc(parse, st, [], Begin(q, ""));
    RunSnoc(parse, st, [] + [Begin(q, "")], stat);
  }

  /** A lone call that leaves the cache stamped with the readable file's time. */
  lemma StampsTheCache(parse: Parser, st: State, q: nat) returns (actions: seq<Action>)
    requires st.files != [] && q !in st.calls && st.files[Current(st)].Present?
    requires parse(st.files[Current(st)].contents).Some?
    ensures var end := Run(parse, st, actions);
            && end.files == st.files && end.cache.lastModified.Some? && end.calls.Keys == st.calls.Keys + {q}
            && end.calls[q].phase.Done? && (forall z | z in st.calls :: end.calls[z] == st.calls[z])
    ensures StatsSucceed(actions)
  {
    hide Step;
    actions := StampedCallStarts(parse, st, q, "");
    var s1 := Run(parse, st, actions);
    CheckStep(parse, s1, q);
    RunSnoc(parse, st, actions, Check(q));
    actions := actions + [Check(q)];
    var s2 := Run(parse, st, actions);
    if s2.calls[q].phase == Reloading {
      var more := ReloadEnds(parse, s2, q);
      RunAppend(parse, st, actions, more);
      actions := actions + more;
    } else {
      LookStep(parse, s2, q);
      RunSnoc(parse, st, actions, Look(q));
      actions := actions + [Look(q)];
    }
  }

  lemma RunNone(parse: Parser, st: State)
    requires st.files != []
    ensures Run(parse, st, []) == st
  {
  }

  lemma CheckSucceeds(q: nat)
    ensures StatsSucceed([] + [Check(q)])
  {
  }

  lemma TimelessCallEnds(parse: Parser, st: State, q: nat) returns (actions: seq<Action>)
    requires st.files != [] && q in st.calls && st.calls[q].phase == Statted && st.calls[q].stat == None
    requires st.cache.lastModified.Some? && st.files[Current(st)].Present?
    requires parse(st.files[Current(st)].contents).Some?
    ensures var end := Run(parse, st, actions);
            && end.files == st.files && end.calls.Keys == st.calls.Keys && end.calls[q].phase.Done?
            && end.cache == Cache(parse(st.files[Current(st)].contents).value, None)
            && forall z | z in st.calls && z != q :: end.calls[z] == st.calls[z]
    ensures StatsSucceed(actions)
  {
    hide Step, Run, StatsSucceed;
    CheckStep(parse, st, q);
    RunSnoc(parse, st, [], Check(q));
    RunNone(parse, st);
    actions := [] + [Check(q)];
    CheckSucceeds(q);
    var rest := ReloadEnds(parse, Run(parse, st, actions), q);
    RunAppend(parse, st, actions, rest);
    StatsSucceedAppend(actions, rest);
    actions := actions + rest;
  }

  /** Keys of version `k` stored under no time, by a call whose stat saw version `i`. */
  lemma StoresUnstamped(parse: Parser, files: seq<FileState>, load: Load, failing: bool, i: nat, k: nat)
    returns (actions: seq<Action>)
    requires ValidLoad(parse, files, load) && UnstampedPair(parse, files, load, failing, i, k)
    ensures var st := Run(parse, Initial(parse, files, load), actions);
            && st.files == files[..k + 1] && st.calls.Keys == {0, 1}
            && st.calls[0].phase.Done? && st.calls[1].phase.Done?
            && st.cache == Cache(parse(files[k].contents).value, None)
    ensures failing || StatsSucceed(actions)
  {
    hide Step, Run, FileWrites, StatsSucceed;
    var init := Initial(parse, files, load);
    actions := FileWrites(files[load.statAt + 1..i + 1]);
    WritesSucceed(files[load.statAt + 1..i + 1]);
    Advance(parse, init, files, load.statAt, i);
    var more := TimelessStat(parse, Run(parse, init, actions), 0, failing);
    RunAppend(parse, init, actions, more);
    if !failing { StatsSucceedAppend(actions, more); }
    actions := actions + more;
    more := FileWrites(files[i + 1..k + 1]);
    WritesSucceed(files[i + 1..k + 1]);
    Advance(parse, Run(parse, init, actions), files, i, k);
    RunAppend(parse, init, actions, more);
    if !failing { StatsSucceedAppend(actions, more); }
    actions := actions + more;
    more := StampsTheCache(parse, Run(parse, init, actions), 1);
    RunAppend(parse, init, actions, more);
    if !failing { StatsSucceedAppend(actions, more); }
    actions := actions + more;
    more := TimelessCallEnds(parse, Run(parse, init, actions), 0);
    RunAppend(parse, init, actions, more);
    if !failing { StatsSucceedAppend(actions, more); }
    actions := actions + more;
  }

  /** Unstamped keys answer a lone call after the file has gone. */
  lemma UnstampedAnswers(parse: Parser, files: seq<FileState>, load: Load, failing: bool, before: seq<Action>)
    requires ValidLoad(parse, files, load) && files[|files| - 1].Absent?
    requires var st := Run(parse, Initial(parse, files, load), before);
             && st.files == files && st.calls.Keys <= {0, 1} && (forall q | q in st.calls :: st.calls[q].phase.Done?)
             && st.cache.lastModified == None && st.cache.data != map[]
    requires failing || StatsSucceed(before)
    ensures !LaterAnswersNothing(parse, files, load, failing)
  {
    hide Step;
    var st := Run(parse, Initial(parse, files, load), before);
    var key :| key in st.cache.data;
    var after := CachedCall(parse, st, 2, key);
    assert LaterGoneAnswer(parse, files, load, failing, before, after, 2);
  }

  /** The rest of the file's versions are written. */
  lemma UpToTheEnd(parse: Parser, files: seq<FileState>, load: Load, actions: seq<Action>, k: nat)
    returns (all: seq<Action>)
    requires ValidLoad(parse, files, load) && k < |files|
    requires Run(parse, Initial(parse, files, load), actions).files == files[..k + 1]
    ensures Run(parse, Initial(parse, files, load), all) ==
            Run(parse, Initial(parse, files, load), actions).(files := files)
    ensures StatsSucceed(actions) ==> StatsSucceed(all)
  {
    hide Step, FileWrites;
    var init, n := Initial(parse, files, load), |files| - 1;
    assert files[..n + 1] == files;
    var more := FileWrites(files[k + 1..n + 1]);
    WritesSucceed(files[k + 1..n + 1]);
    Advance(parse, Run(parse, init, actions), files, k, n);
    RunAppend(parse, init, actions, more);
    all := actions + more;
  }

  lemma PairKeys(parse: Parser, files: seq<FileState>, load: Load, failing: bool, i: nat, k: nat)
    requires UnstampedPair(parse, files, load, failing, i, k)
    ensures k < |files| && files[k].Present? && parse(files[k].contents).Some?
    ensures parse(files[k].contents).value != map[]
  {
  }

  /** Main result: for a history that ends with the file gone, calls that begin after older ones
      have finished answer that the key is not there, in every interleaving, exactly when keys
      can never have been stored without a modification time: neither by the constructor, nor
      by a call whose stat found no file (or failed) before a version with keys. */
  lemma GoneFileExactly(parse: Parser, files: seq<FileState>, load: Load, failing: bool)
    requires ValidLoad(parse, files, load) && files[|files| - 1].Absent?
    ensures NeverUnstamped(parse, files, load, failing) <==> LaterAnswersNothing(parse, files, load, failing)
  {
    hide Run, UnstampedPair;
    if NeverUnstamped(parse, files, load, failing) {
      forall before, after, q | LaterGoneAnswer(parse, files, load, failing, before, after, q)
        ensures Run(parse, Run(parse, Initial(parse, files, load), before), after).calls[q].phase.answer.value == None
      {
        GoneForLaterCalls(parse, files, load, failing, before, after, q);
      }
    } else if UnstampedLoad(parse, files, load) {
      RunNone(parse, Initial(parse, files, load));
      var before := UpToTheEnd(parse, files, load, [], load.statAt);
      UnstampedAnswers(parse, files, load, failing, before);
    } else {
      var i, k :| UnstampedPair(parse, files, load, failing, i, k);
      var actions := StoresUnstamped(parse, files, load, failing, i, k);
      PairKeys(parse, files, load, failing, i, k);
      var before := UpToTheEnd(parse, files, load, actions, k);
      UnstampedAnswers(parse, files, load, failing, before);
    }
  }
}
