/** How old the contents behind an answer can be while calls overlap and the file changes. */
module FileAge {
  import opened Common
  import opened FileBackends
  import opened FileMachine
  import opened FileTheorems

  /** Versions older than `n` that could have been cached under the stamp of version `n` parse
      to what version `n` does. */
  ghost predicate NoOldStamp(parse: Parser, files: seq<FileState>, load: Load, n: nat)
    requires n < |files|
  {
    forall i: nat, j: nat |
      i < |files| && j < n && Pairable(files, load, i, j)
      && files[n].Present? && files[i].Present? && files[i].mtime == files[n].mtime
      && files[j].Present? && parse(files[j].contents).Some? ::
      Meaning(parse, files[j]) == Meaning(parse, files[n])
  }

  /** The same for every version a call can meet. */
  ghost predicate NoOldStamps(parse: Parser, files: seq<FileState>, load: Load) {
    forall n: nat | load.statAt <= n < |files| :: NoOldStamp(parse, files, load, n)
  }

  /** `data` is what version `j` says, and `j` was current after call `q`, or a call that was
      running when `q` began, had started. */
  ghost predicate CurrentAt(parse: Parser, st: State, q: nat, data: Data, z: nat, j: nat)
    requires q in st.calls
  {
    && (z == q || z in st.calls[q].peers) && z in st.calls
    && st.calls[z].start <= j < |st.files|
    && Meaning(parse, st.files[j]) == Some(data)
  }

  ghost predicate OverlapCurrent(parse: Parser, st: State, q: nat, data: Data)
    requires q in st.calls
  {
    exists z, j :: CurrentAt(parse, st, q, data, z, j)
  }

  /** The stat succeeded, and told the cache's age: it found the file, or no data was ever
      stored without a modification time. */
  predicate Informed(st: State, q: nat)
    requires q in st.calls
  {
    st.calls[q].statOk && (st.calls[q].stat.Some? || !st.blind)
  }

  ghost predicate AgeOk(parse: Parser, st: State, q: nat)
    requires q in st.calls
  {
    Informed(st, q) ==>
      && (st.calls[q].phase.Ready? ==> OverlapCurrent(parse, st, q, st.cache.data))
      && (st.calls[q].phase.Done? && st.calls[q].phase.answer.Value? ==>
            exists d :: OverlapCurrent(parse, st, q, d)
                        && st.calls[q].phase.answer.value == Lookup(d, st.calls[q].key))
  }

  lemma OverlapKept(parse: Parser, st: State, st': State, q: nat, d: Data)
    requires q in st.calls && q in st'.calls && OverlapCurrent(parse, st, q, d)
    requires st.files <= st'.files && st'.calls[q].peers == st.calls[q].peers
    requires forall z | z in st.calls :: z in st'.calls && st'.calls[z].start == st.calls[z].start
    ensures OverlapCurrent(parse, st', q, d)
  {
    var z, j :| CurrentAt(parse, st, q, d, z, j);
    assert CurrentAt(parse, st', q, d, z, j);
  }

  lemma CheckedIsCurrent(parse: Parser, st: State, load: Load, files: seq<FileState>, q: nat)
    requires st.files != [] && Inv(parse, st, load) && st.files <= files
    requires q in st.calls && st.calls[q].phase.Statted? && Informed(st, q)
    requires st.calls[q].statAt < |files| ==> NoOldStamp(parse, files, load, st.calls[q].statAt)
    requires st.cache.lastModified == st.calls[q].stat
    ensures OverlapCurrent(parse, Step(parse, st, Check(q)), q, st.cache.data)
  {
    var call, st' := st.calls[q], Step(parse, st, Check(q));
    assert GoodCall(parse, st.files, load, call);
    var j := st.source.readAt;
    if call.start <= j {
      assert CurrentAt(parse, st', q, st.cache.data, q, j);
    } else {
      assert files[j] == st.files[j] && files[call.statAt] == st.files[call.statAt];
      assert call.stat.Some? ==> files[st.source.statAt] == st.files[st.source.statAt];
      assert CurrentAt(parse, st', q, st.cache.data, q, call.statAt);
    }
  }

  lemma StatAfterLoad(parse: Parser, st: State, load: Load, q: nat)
    requires st.files != [] && Inv(parse, st, load) && q in st.calls && st.calls[q].phase.Statted?
    ensures load.statAt <= st.calls[q].statAt < |st.files|
  {
    assert GoodCall(parse, st.files, load, st.calls[q]);
  }

  /** A store by call `z` leaves data that was current after `z` started. */
  lemma StoredIsCurrent(parse: Parser, st: State, load: Load, z: nat, q: nat)
    requires st.files != [] && Inv(parse, st, load)
    requires z in st.calls && (st.calls[z].phase.Gone? || st.calls[z].phase.Fetched?)
    requires q in st.calls && !st.calls[q].phase.Done?
    ensures var st' := Step(parse, st, Store(z));
            OverlapCurrent(parse, st', q, st'.cache.data)
  {
    var st' := Step(parse, st, Store(z));
    OthersUntouched(parse, st, Store(z));
    OwnHistoryKept(parse, st, Store(z));
    assert GoodCall(parse, st.files, load, st.calls[z]);
    var j := st.calls[z].readAt;
    if z in st.calls[q].peers || z == q {
      assert CurrentAt(parse, st', q, st'.cache.data, z, j);
    } else {
      assert st.calls[z].start >= st.calls[q].start;
      assert CurrentAt(parse, st', q, st'.cache.data, q, j);
    }
  }

  lemma AgeStepOwn(parse: Parser, st: State, load: Load, files: seq<FileState>, a: Action)
    requires st.files != [] && Inv(parse, st, load) && !a.WriteFile?
    requires Step(parse, st, a).files <= files && a.q in Step(parse, st, a).calls
    requires NoOldStamps(parse, files, load)
    requires a.q in st.calls ==> AgeOk(parse, st, a.q)
    ensures AgeOk(parse, Step(parse, st, a), a.q)
  {
    hide Inv, NoOldStamp, CurrentAt;
    var st', q := Step(parse, st, a), a.q;
    OthersUntouched(parse, st, a);
    if q in st.calls {
      OwnHistoryKept(parse, st, a);
      var call := st.calls[q];
      if a.Check? && call.phase.Statted? {
        assert Informed(st', q) <==> Informed(st, q);
        if Informed(st, q) && st.cache.lastModified == call.stat {
          StatAfterLoad(parse, st, load, q);
          CheckedIsCurrent(parse, st, load, files, q);
        }
      } else if a.Store? && (call.phase.Gone? || call.phase.Fetched?) {
        StoredIsCurrent(parse, st, load, q, q);
      } else if a.Look? && call.phase.Ready? && Informed(st', q) {
        OverlapKept(parse, st, st', q, st.cache.data);
      } else if st'.calls[q] == call && call.phase.Done? && call.phase.answer.Value? && Informed(st', q) {
        var d :| OverlapCurrent(parse, st, q, d) && call.phase.answer.value == Lookup(d, call.key);
        OverlapKept(parse, st, st', q, d);
      }
    }
  }

  lemma BlindOnlyGrows(parse: Parser, st: State, a: Action)
    requires st.files != []
    ensures st.blind ==> Step(parse, st, a).blind
    ensures !(a.Store? && a.q in st.calls && (st.calls[a.q].phase.Gone? || st.calls[a.q].phase.Fetched?)) ==>
              Step(parse, st, a).cache == st.cache
  {
  }

  lemma AgeStepOther(parse: Parser, st: State, load: Load, a: Action, q: nat)
    requires st.files != [] && Inv(parse, st, load)
    requires q in st.calls && (a.WriteFile? || q != a.q) && AgeOk(parse, st, q)
    ensures q in Step(parse, st, a).calls && AgeOk(parse, Step(parse, st, a), q)
  {
    var st', call := Step(parse, st, a), st.calls[q];
    if !a.WriteFile? {
      StepFrame(parse, st, a);
    }
    hide Inv, CurrentAt;
    assert st'.calls[q] == call && st.files <= st'.files;
    if Informed(st', q) && call.phase.Ready? {
      BlindOnlyGrows(parse, st, a);
      if a.Store? && a.q in st.calls && (st.calls[a.q].phase.Gone? || st.calls[a.q].phase.Fetched?) {
        StoredIsCurrent(parse, st, load, a.q, q);
      } else {
        OverlapKept(parse, st, st', q, st.cache.data);
      }
    } else if Informed(st', q) && call.phase.Done? && call.phase.answer.Value? {
      BlindOnlyGrows(parse, st, a);
      var d :| OverlapCurrent(parse, st, q, d) && call.phase.answer.value == Lookup(d, call.key);
      OverlapKept(parse, st, st', q, d);
    }
  }

  lemma AgeStep(parse: Parser, st: State, load: Load, files: seq<FileState>, a: Action)
    requires st.files != [] && Inv(parse, st, load) && Step(parse, st, a).files <= files
    requires NoOldStamps(parse, files, load)
    requires forall q | q in st.calls :: AgeOk(parse, st, q)
    ensures var st' := Step(parse, st, a);
            forall q | q in st'.calls :: AgeOk(parse, st', q)
  {
    hide Inv, NoOldStamps, AgeOk, Step;
    var st' := Step(parse, st, a);
    if a.WriteFile? {
      WriteStep(parse, st, a.file);
    } else {
      OthersUntouched(parse, st, a);
    }
    forall q | q in st'.calls ensures AgeOk(parse, st', q) {
      if !a.WriteFile? && q == a.q {
        AgeStepOwn(parse, st, load, files, a);
      } else {
        AgeStepOther(parse, st, load, a, q);
      }
    }
  }

  lemma {:induction false} AgeRun(parse: Parser, files: seq<FileState>, load: Load, actions: seq<Action>)
    requires ValidLoad(parse, files, load)
    requires Run(parse, Initial(parse, files, load), actions).files <= files
    requires NoOldStamps(parse, files, load)
    ensures var st := Run(parse, Initial(parse, files, load), actions);
            forall q | q in st.calls :: AgeOk(parse, st, q)
  {
    hide Inv, NoOldStamps, AgeOk, Step;
    var init := Initial(parse, files, load);
    if actions == [] {
    } else {
      hide Run, Initial;
      var before, a := actions[..|actions| - 1], actions[|actions| - 1];
      var st := Run(parse, init, before);
      RunSnoc(parse, init, before, a);
      assert before + [a] == actions;
      StepGrowsFiles(parse, st, a);
      AgeRun(parse, files, load, before);
      InitialInv(parse, files, load);
      RunPreservesInv(parse, init, load, before);
      AgeStep(parse, st, load, files, a);
    }
  }

  predicate InformedAnswer(st: State, q: nat) {
    q in st.calls && Informed(st, q) && st.calls[q].phase.Done? && st.calls[q].phase.answer.Value?
  }

  ghost predicate AnswerOverlaps(parse: Parser, st: State, q: nat)
    requires InformedAnswer(st, q)
  {
    exists z, j, d :: CurrentAt(parse, st, q, d, z, j) && st.calls[q].phase.answer.value == Lookup(d, st.calls[q].key)
  }

  /** An informed call answers from contents that were current at some moment no earlier than
      its own start, or than the start of a call still running when it began. */
  lemma AnswersFromOverlap(parse: Parser, files: seq<FileState>, load: Load, actions: seq<Action>, q: nat)
    returns (z: nat, j: nat, d: Data)
    requires ValidLoad(parse, files, load) && NoOldStamps(parse, files, load)
    requires var st := Run(parse, Initial(parse, files, load), actions);
             st.files <= files && InformedAnswer(st, q)
    ensures var st := Run(parse, Initial(parse, files, load), actions);
            && (z == q || z in st.calls[q].peers) && z in st.calls
            && st.calls[z].start <= j < |st.files|
            && Meaning(parse, st.files[j]) == Some(d)
            && st.calls[q].phase.answer.value == Lookup(d, st.calls[q].key)
    ensures AnswerOverlaps(parse, Run(parse, Initial(parse, files, load), actions), q)
  {
    hide Inv, NoOldStamps;
    var st := Run(parse, Initial(parse, files, load), actions);
    AgeRun(parse, files, load, actions);
    assert AgeOk(parse, st, q);
    d :| OverlapCurrent(parse, st, q, d) && st.calls[q].phase.answer.value == Lookup(d, st.calls[q].key);
    z, j :| CurrentAt(parse, st, q, d, z, j);
  }

  // ---------- the condition on modification times is exact ----------

  /** A version stamped like an older pair that could be cached: a lone call begun at it answers
      from the older contents. */
  lemma OldStampAnswer(parse: Parser, files: seq<FileState>, load: Load, n: nat, i: nat, j: nat)
    returns (actions: seq<Action>)
    requires ValidLoad(parse, files, load) && load.statAt <= n < |files| && i < |files| && j < n
    requires Pairable(files, load, i, j)
    requires files[n].Present? && files[i].Present? && files[i].mtime == files[n].mtime
    requires files[j].Present? && parse(files[j].contents).Some?
    requires Meaning(parse, files[j]) != Meaning(parse, files[n])
    ensures var st := Run(parse, Initial(parse, files, load), actions);
            st.files <= files && InformedAnswer(st, 2) && !AnswerOverlaps(parse, st, 2)
  {
    hide Step;
    var seen := files[..n + 1];
    assert seen[..load.statAt + 1] == files[..load.statAt + 1];
    assert Initial(parse, seen, load) == Initial(parse, files, load);
    var before := PairCached(parse, seen, load, i, j);
    var st := Run(parse, Initial(parse, files, load), before);
    var was, now := parse(files[j].contents).value, Meaning(parse, files[n]);
    var key := if now.Some? then DifferingKey(was, now.value) else "";
    var after := CachedCall(parse, st, 2, key);
    RunAppend(parse, Initial(parse, files, load), before, after);
    actions := before + after;
  }

  /** Every informed answer of every run over these versions is from its overlap. */
  ghost predicate AnswersOverlap(parse: Parser, files: seq<FileState>, load: Load)
    requires ValidLoad(parse, files, load)
  {
    forall actions, q |
      Run(parse, Initial(parse, files, load), actions).files <= files
      && InformedAnswer(Run(parse, Initial(parse, files, load), actions), q) ::
      AnswerOverlaps(parse, Run(parse, Initial(parse, files, load), actions), q)
  }

  /** Main result: in every interleaving, informed calls answer from contents current after they
      or a call still running when they began had started, exactly when no version carries the
      modification time of older contents that could have been cached under it. */
  lemma OverlapExactly(parse: Parser, files: seq<FileState>, load: Load)
    requires ValidLoad(parse, files, load)
    ensures NoOldStamps(parse, files, load) <==> AnswersOverlap(parse, files, load)
  {
    hide Run, AnswerOverlaps;
    if NoOldStamps(parse, files, load) {
      forall actions, q |
        Run(parse, Initial(parse, files, load), actions).files <= files
        && InformedAnswer(Run(parse, Initial(parse, files, load), actions), q)
        ensures AnswerOverlaps(parse, Run(parse, Initial(parse, files, load), actions), q)
      {
        var z, j, d := AnswersFromOverlap(parse, files, load, actions, q);
      }
    } else {
      var n: nat :| load.statAt <= n < |files| && !NoOldStamp(parse, files, load, n);
      var i: nat, j: nat :|
        i < |files| && j < n && Pairable(files, load, i, j)
        && files[n].Present? && files[i].Present? && files[i].mtime == files[n].mtime
        && files[j].Present? && parse(files[j].contents).Some?
        && Meaning(parse, files[j]) != Meaning(parse, files[n]);
      var actions := OldStampAnswer(parse, files, load, n, i, j);
    }
  }

  // ---------- when a call's own start is enough ----------

  ghost predicate FromOwnStart(parse: Parser, st: State, q: nat)
    requires InformedAnswer(st, q)
  {
    exists j: nat | st.calls[q].start <= j < |st.files| ::
      && Meaning(parse, st.files[j]).Some?
      && st.calls[q].phase.answer.value == Lookup(Meaning(parse, st.files[j]).value, st.calls[q].key)
  }

  /** A call that began with no other unfinished answers from its own start on. */
  lemma AloneFromOwnStart(parse: Parser, files: seq<FileState>, load: Load, actions: seq<Action>, q: nat)
    requires ValidLoad(parse, files, load) && NoOldStamps(parse, files, load)
    requires var st := Run(parse, Initial(parse, files, load), actions);
             st.files <= files && InformedAnswer(st, q) && st.calls[q].peers == {}
    ensures FromOwnStart(parse, Run(parse, Initial(parse, files, load), actions), q)
  {
    hide Run, NoOldStamps;
    var z, j, d := AnswersFromOverlap(parse, files, load, actions, q);
  }

  predicate AllReadable(parse: Parser, files: seq<FileState>, load: Load) {
    forall k: nat | load.statAt <= k < |files| :: files[k].Present? && parse(files[k].contents).Some?
  }

  /** All versions calls can meet, and a load that is stamped, parse to the same. */
  ghost predicate AllAlike(parse: Parser, files: seq<FileState>, load: Load)
    requires ValidLoad(parse, files, load)
  {
    && (forall k: nat | load.statAt <= k < |files| ::
          Meaning(parse, files[k]) == Meaning(parse, files[|files| - 1]))
    && (load.statOk && files[load.readAt].Present? ==>
          Meaning(parse, files[load.readAt]) == Meaning(parse, files[|files| - 1]))
  }

  ghost predicate AnswersFromOwnStart(parse: Parser, files: seq<FileState>, load: Load)
    requires ValidLoad(parse, files, load)
  {
    forall actions, q |
      Run(parse, Initial(parse, files, load), actions).files == files
      && InformedAnswer(Run(parse, Initial(parse, files, load), actions), q) ::
      FromOwnStart(parse, Run(parse, Initial(parse, files, load), actions), q)
  }

  lemma AlikeStamps(parse: Parser, files: seq<FileState>, load: Load)
    requires ValidLoad(parse, files, load) && AllAlike(parse, files, load)
    ensures NoOldStamps(parse, files, load)
  {
  }

  lemma AlikeSuffices(parse: Parser, files: seq<FileState>, load: Load, actions: seq<Action>, q: nat)
    requires ValidLoad(parse, files, load) && AllReadable(parse, files, load) && AllAlike(parse, files, load)
    requires Run(parse, Initial(parse, files, load), actions).files == files
    requires InformedAnswer(Run(parse, Initial(parse, files, load), actions), q)
    ensures FromOwnStart(parse, Run(parse, Initial(parse, files, load), actions), q)
  {
    hide Run, GoodCache, GoodPeers;
    var st := Run(parse, Initial(parse, files, load), actions);
    InitialInv(parse, files, load);
    RunPreservesInv(parse, Initial(parse, files, load), load, actions);
    AlikeStamps(parse, files, load);
    var z, j, d := AnswersFromOverlap(parse, files, load, actions, q);
    assert GoodCall(parse, files, load, st.calls[z]) && GoodCall(parse, files, load, st.calls[q]);
    assert Meaning(parse, st.files[|files| - 1]) == Some(d);
  }

  /** A call that has read version `j` and waits to store it, whatever was cached. */
  lemma StoreHeldBack(parse: Parser, st: State) returns (actions: seq<Action>)
    requires st.files != [] && st.calls == map[] && st.files[Current(st)].Present?
    requires parse(st.files[Current(st)].contents).Some?
    ensures var end := Run(parse, st, actions);
            && end.files == st.files && end.calls.Keys == {0, 1} && end.calls[0].stat.Some?
            && end.calls[0].phase == Fetched(parse(st.files[Current(st)].contents).value)
  {
    hide Step;
    actions := BlindCall(parse, st, 1);
    var s1 := Run(parse, st, actions);
    var more := StampedCallStarts(parse, s1, 0, "");
    RunAppend(parse, st, actions, more);
    actions := actions + more;
    var s2 := Run(parse, st, actions);
    CheckStep(parse, s2, 0);
    var s3 := Step(parse, s2, Check(0));
    ReadParses(parse, s3, 0);
    RunSnoc(parse, st, actions, Check(0));
    RunSnoc(parse, st, actions + [Check(0)], Read(0));
    actions := actions + [Check(0)] + [Read(0)];
  }

  /** A call brought to its final lookup at a readable version. */
  lemma BecomesReady(parse: Parser, st: State, q: nat, key: string) returns (actions: seq<Action>)
    requires st.files != [] && q !in st.calls && st.files[Current(st)].Present?
    requires parse(st.files[Current(st)].contents).Some?
    ensures var end := Run(parse, st, actions);
            && end.files == st.files && end.calls.Keys == st.calls.Keys + {q}
            && (forall z | z in st.calls :: end.calls[z] == st.calls[z])
            && end.calls[q].phase == Ready && end.calls[q].statOk && end.calls[q].stat.Some?
            && end.calls[q].start == Current(st) && end.calls[q].key == key
  {
    hide Step;
    actions := StampedCallStarts(parse, st, q, key);
    var s1 := Run(parse, st, actions);
    CheckStep(parse, s1, q);
    RunSnoc(parse, st, actions, Check(q));
    actions := actions + [Check(q)];
    var s2 := Run(parse, st, actions);
    if s2.calls[q].phase == Reloading {
      ReadParses(parse, s2, q);
      var s3 := Step(parse, s2, Read(q));
      StoreFetched(parse, s3, q);
      RunSnoc(parse, st, actions, Read(q));
      RunSnoc(parse, st, actions + [Read(q)], Store(q));
      actions := actions + [Read(q)] + [Store(q)];
    }
  }

  /** The store held back since version `j` comes between a later call's own store and its
      final lookup: that call answers from version `j`. */
  lemma OldStoreAnswers(parse: Parser, files: seq<FileState>, load: Load, j: nat, key: string)
    returns (actions: seq<Action>)
    requires ValidLoad(parse, files, load) && AllReadable(parse, files, load) && load.statAt <= j < |files|
    ensures var st := Run(parse, Initial(parse, files, load), actions);
            && st.files == files && InformedAnswer(st, 2) && st.calls[2].start == |files| - 1
            && st.calls[2].key == key
            && st.calls[2].phase.answer.value == Lookup(parse(files[j].contents).value, key)
  {
    hide Step, Run, FileWrites;
    var init, n := Initial(parse, files, load), |files| - 1;
    assert files[..n + 1] == files;
    actions := FileWrites(files[load.statAt + 1..j + 1]);
    Advance(parse, init, files, load.statAt, j);
    var more := StoreHeldBack(parse, Run(parse, init, actions));
    RunAppend(parse, init, actions, more);
    actions := actions + more;
    more := FileWrites(files[j + 1..n + 1]);
    Advance(parse, Run(parse, init, actions), files, j, n);
    RunAppend(parse, init, actions, more);
    actions := actions + more;
    more := BecomesReady(parse, Run(parse, init, actions), 2, key);
    RunAppend(parse, init, actions, more);
    actions := actions + more;
    var s1 := Run(parse, init, actions);
    StoreFetched(parse, s1, 0);
    LookStep(parse, Step(parse, s1, Store(0)), 2);
    RunSnoc(parse, init, actions, Store(0));
    RunSnoc(parse, init, actions + [Store(0)], Look(2));
    actions := actions + [Store(0)] + [Look(2)];
  }

  /** A stamped load from before the stat answers a call begun at once. */
  lemma LoadAnswers(parse: Parser, files: seq<FileState>, load: Load, key: string) returns (actions: seq<Action>)
    requires ValidLoad(parse, files, load) && AllReadable(parse, files, load)
    requires load.statOk && files[load.readAt].Present?
    ensures var st := Run(parse, Initial(parse, files, load), actions);
            && st.files == files && InformedAnswer(st, 2) && st.calls[2].start == load.statAt
            && st.calls[2].key == key
            && st.calls[2].phase.answer.value == Lookup(parse(files[load.readAt].contents).value, key)
  {
    hide Step, FileWrites;
    var init, n := Initial(parse, files, load), |files| - 1;
    assert files[..n + 1] == files;
    actions := CachedCall(parse, init, 2, key);
    var more := FileWrites(files[load.statAt + 1..n + 1]);
    Advance(parse, Run(parse, init, actions), files, load.statAt, n);
    RunAppend(parse, init, actions, more);
    actions := actions + more;
  }

  /** Main result: while the file stays readable, informed calls answer from their own start on
      in every interleaving exactly when all its versions, and a stamped load, parse alike; so
      as soon as one change matters, the call's second lock section can show it older contents. */
  lemma OwnStartExactly(parse: Parser, files: seq<FileState>, load: Load)
    requires ValidLoad(parse, files, load) && AllReadable(parse, files, load)
    ensures AllAlike(parse, files, load) <==> AnswersFromOwnStart(parse, files, load)
  {
    hide Run;
    if AllAlike(parse, files, load) {
      forall actions, q |
        Run(parse, Initial(parse, files, load), actions).files == files
        && InformedAnswer(Run(parse, Initial(parse, files, load), actions), q)
        ensures FromOwnStart(parse, Run(parse, Initial(parse, files, load), actions), q)
      {
        AlikeSuffices(parse, files, load, actions, q);
      }
    } else {
      var now := Meaning(parse, files[|files| - 1]).value;
      if k: nat :| load.statAt <= k < |files| && Meaning(parse, files[k]) != Some(now) {
        var actions := OldStoreAnswers(parse, files, load, k, DifferingKey(parse(files[k].contents).value, now));
      } else {
        var was := parse(files[load.readAt].contents).value;
        var actions := LoadAnswers(parse, files, load, DifferingKey(was, now));
      }
    }
  }
}
