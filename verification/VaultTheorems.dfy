/** What every run of the Vault machine guarantees: entries are filed under the right
    reference exactly when key names are safe, the cache holds the latest fill of every key,
    answers are bounded in age, and a fresh fill is never fetched again. */
module VaultTheorems {
  import opened Common
  import opened Decimal
  import opened VaultRefs
  import opened VaultCache
  import opened VaultMachine

  // ---------- entries are filed under the reference they answer ----------

  /** No unversioned secret has a key whose name ends in a version. */
  ghost predicate SafeNames(vault: Vault) {
    forall t, id, name |
      ValidId(id) && vault(t, id).Some? && name in vault(t, id).value :: SafeName(id, name)
  }

  ghost predicate Holds(vault: Vault, t: nat, r: VaultRef, value: string) {
    vault(t, IdOf(r)).Some? && Lookup(vault(t, IdOf(r)).value, r.key) == Some(value)
  }

  /** Whatever a request can find was read from Vault for exactly that request's mount, path,
      version and key. */
  ghost predicate Faithful(vault: Vault, st: State) {
    forall text | text in st.cache && ParseRef(text).Some? ::
      && text in st.origins
      && var r, o := RefOf(text), st.origins[text];
         && o.fill.id == IdOf(r) && o.name == r.key
         && Holds(vault, o.fill.fetchedAt, r, st.cache[text].value)
  }

  lemma SafeOrigin(vault: Vault, fills: seq<Fill>, now: nat, text: string, o: Origin)
    requires SafeNames(vault) && GenuineOrigin(vault, fills, now, text, o)
    ensures ParseRef(text) in {None, Some(RefTo(o.fill.id, o.name))}
    ensures ParseRef(text).Some? ==> o.fill.id == IdOf(RefOf(text)) && o.name == RefOf(text).key
  {
    hide ParseRef, CacheKey;
    assert SafeName(o.fill.id, o.name);
    CacheKeyMeaning(o.fill.id, o.name);
  }

  lemma SafeNamesSuffice(vault: Vault, ttl: nat, actions: seq<Action>)
    requires SafeNames(vault)
    ensures Faithful(vault, Run(vault, ttl, INITIAL, actions))
  {
    hide ParseRef, CacheKey;
    RunPreservesInv(vault, ttl, INITIAL, actions);
    var st := Run(vault, ttl, INITIAL, actions);
    forall text | text in st.cache && ParseRef(text).Some?
      ensures SafeNames(vault) && GoodEntry(vault, ttl, st, text)
      ensures st.origins[text].fill.id == IdOf(RefOf(text)) && st.origins[text].name == RefOf(text).key
    {
      SafeOrigin(vault, st.fills, st.now, text, st.origins[text]);
    }
  }

  lemma RunSnoc(vault: Vault, ttl: nat, st: State, actions: seq<Action>, a: Action)
    ensures Run(vault, ttl, st, actions + [a]) == Step(vault, ttl, Run(vault, ttl, st, actions), a)
  {
  }

  lemma {:induction false} RunAppend(vault: Vault, ttl: nat, st: State, first: seq<Action>, second: seq<Action>)
    ensures Run(vault, ttl, st, first + second) == Run(vault, ttl, Run(vault, ttl, st, first), second)
  {
    hide Step;
    if second == [] {
      assert first + second == first;
    } else {
      var front, a := second[..|second| - 1], second[|second| - 1];
      RunAppend(vault, ttl, st, first, front);
      assert first + second == (first + front) + [a];
      RunSnoc(vault, ttl, st, first + front, a);
    }
  }

  /** A run in which one call misses, reads its secret at instant `t` and fills the cache
      `latency` later. */
  lemma FetchRun(vault: Vault, ttl: nat, text: string, t: nat, latency: nat) returns (actions: seq<Action>)
    requires ParseRef(text).Some? && vault(t, IdOf(RefOf(text))).Some?
    ensures var st := Run(vault, ttl, INITIAL, actions);
            var secret, at := vault(t, IdOf(RefOf(text))).value, t + latency;
            var fill := Fill(0, IdOf(RefOf(text)), t, at, secret);
            && st.now == at && st.fills == [fill]
            && st.calls == map[0 := Call(text, 0, Filled(at, Lookup(secret, RefOf(text).key), fill))]
            && forall k | k in secret ::
                 && Lookup(st.cache, CacheKey(fill.id, k)) == Some(CacheEntry(secret[k], at + ttl))
                 && Lookup(st.origins, CacheKey(fill.id, k)) == Some(Origin(fill, k))
  {
    hide ParseRef, CacheKey, RefOf, IdOf, StoreStep;
    var s1 := [Begin(0, text)];
    var s2 := s1 + [Tick(t)];
    var s3 := s2 + [Look(0)];
    var s4 := s3 + [Read(0)];
    var s5 := s4 + [Tick(latency)];
    actions := s5 + [Store(0)];
    RunSnoc(vault, ttl, INITIAL, [], Begin(0, text));
    RunSnoc(vault, ttl, INITIAL, s1, Tick(t));
    RunSnoc(vault, ttl, INITIAL, s2, Look(0));
    RunSnoc(vault, ttl, INITIAL, s3, Read(0));
    RunSnoc(vault, ttl, INITIAL, s4, Tick(latency));
    RunSnoc(vault, ttl, INITIAL, s5, Store(0));
    assert [] + [Begin(0, text)] == s1;
    var before := Run(vault, ttl, INITIAL, s5);
    assert before.calls == map[0 := Call(text, 0, Fetched(t, vault(t, IdOf(RefOf(text))).value))];
    StoreFrame(ttl, before, 0);
    forall k | k in FillOf(before, 0).secret {
      StoredText(ttl, before, 0, k);
    }
  }

  /** With a key called `a#3` in an unversioned secret, a run ends with its value filed as the
      answer to key `a` at version 3. */
  lemma MisfilingRun(vault: Vault, ttl: nat, t: nat, id: SecretId, name: string)
    returns (actions: seq<Action>)
    requires ValidId(id) && vault(t, id).Some? && name in vault(t, id).value && !SafeName(id, name)
    ensures var (st, p, text) := (Run(vault, ttl, INITIAL, actions), FindChar(name, '#').value, CacheKey(id, name));
            && st.now == t
            && Lookup(st.cache, text) == Some(CacheEntry(vault(t, id).value[name], t + ttl))
            && ParseRef(text) == Some(VaultRef(id.mount, id.path, name[..p], ParseU64(name[p + 1..])))
            && ParseRef(text).value.version.Some? && id.version.None?
    ensures !Faithful(vault, Run(vault, ttl, INITIAL, actions))
  {
    hide ParseRef, CacheKey;
    CacheKeyMeaning(id, "x");
    MisfiledMeaning(id, name);
    actions := FetchRun(vault, ttl, CacheKey(id, "x"), t, 0);
  }

  /** Main result: the cache answers for the right reference in every run exactly when key
      names are safe. */
  lemma FaithfulExactlyForSafeNames(vault: Vault, ttl: nat)
    ensures SafeNames(vault)
            <==> forall actions :: Faithful(vault, Run(vault, ttl, INITIAL, actions))
  {
    if SafeNames(vault) {
      forall actions ensures Faithful(vault, Run(vault, ttl, INITIAL, actions)) {
        SafeNamesSuffice(vault, ttl, actions);
      }
    } else {
      var t, id, name :|
        ValidId(id) && vault(t, id).Some? && name in vault(t, id).value && !SafeName(id, name);
      var actions := MisfilingRun(vault, ttl, t, id, name);
    }
  }

  // ---------- an undisturbed call is the class's call ----------

  function OutcomeOf(call: Call): Option<Outcome> {
    match call.phase
    case Served(_, v, _) => Some(Answer(Some(v)))
    case Filled(_, outcome, _) => Some(Answer(outcome))
    case Failed(_, e) => if e.Answer? then None else Some(e)
    case _ => None
  }

  predicate EndedAt(call: Call, at: nat) {
    match call.phase
    case Served(t, _, _) => t == at
    case Filled(t, _, _) => t == at
    case Failed(t, _) => t == at
    case _ => false
  }

  /** Read and store of one call, with nothing in between. */
  lemma LoneFetch(vault: Vault, ttl: nat, st: State, c: nat)
    requires c in st.calls && st.calls[c].phase == Missed && ParseRef(st.calls[c].text).Some?
    requires vault(st.now, IdOf(RefOf(st.calls[c].text))).Some?
    ensures var call, id := st.calls[c], IdOf(RefOf(st.calls[c].text));
            var secret := vault(st.now, id).value;
            var fill := Fill(c, id, st.now, st.now, secret);
            var end := Step(vault, ttl, Step(vault, ttl, st, Read(c)), Store(c));
            && end.now == st.now && end.fills == st.fills + [fill]
            && end.calls == st.calls[c := call.(phase := Filled(st.now, Lookup(secret, RefOf(call.text).key), fill))]
            && end.cache == InsertAll(st.cache, id, Entries(secret, st.now + ttl))
  {
    hide ParseRef, CacheKey, RefOf, IdOf, InsertAll, Hit, Entries;
    var s1 := Step(vault, ttl, st, Read(c));
    assert s1 == InPhase(st, c, Fetched(st.now, vault(st.now, IdOf(RefOf(st.calls[c].text))).value));
  }

  lemma LookNow(vault: Vault, ttl: nat, st: State, c: nat)
    requires c in st.calls && st.calls[c].phase.Parsed?
    ensures Step(vault, ttl, st, Look(c)) == st.(calls := st.calls[c := st.calls[c].(phase :=
              match Hit(st.cache, st.calls[c].text, st.now)
              case Some(v) => Served(st.now, v, Lookup(st.origins, st.calls[c].text))
              case None => Missed)])
  {
    hide Hit;
  }

  lemma FailNow(vault: Vault, ttl: nat, st: State, c: nat)
    requires c in st.calls && st.calls[c].phase.Missed?
    ensures Step(vault, ttl, st, ReadFails(c)) == InPhase(st, c, Failed(st.now, ReadError))
  {
  }

  /** A parsed call run to its end at once, by hit, failed read, or read and fill. */
  lemma ParsedCallEnds(vault: Vault, ttl: nat, st: State, c: nat) returns (actions: seq<Action>)
    requires c in st.calls && st.calls[c].phase == Parsed && ParseRef(st.calls[c].text).Some?
    ensures var (end, call) := (Run(vault, ttl, st, actions), st.calls[c]);
            && end.now == st.now && end.calls.Keys == st.calls.Keys
            && end.calls[c].text == call.text && end.calls[c].start == call.start && EndedAt(end.calls[c], st.now)
            && (end.fills == st.fills || exists f :: end.fills == st.fills + [f] && f.fetchedAt == f.filledAt)
            && OutcomeOf(end.calls[c]).Some?
            && (OutcomeOf(end.calls[c]).value, end.cache) ==
               Resolved(st.cache, ttl, call.text, st.now, vault(st.now, IdOf(RefOf(call.text))), st.now)
  {
    hide ParseRef, CacheKey, IdOf, InsertAll, Hit, Entries, StoreStep, Step;
    var call := st.calls[c];
    LookNow(vault, ttl, st, c);
    actions := [] + [Look(c)];
    RunSnoc(vault, ttl, st, [], Look(c));
    if Hit(st.cache, call.text, st.now).None? {
      var s1 := Run(vault, ttl, st, actions);
      match vault(st.now, IdOf(RefOf(call.text)))
      case Some(_) =>
        LoneFetch(vault, ttl, s1, c);
        RunSnoc(vault, ttl, st, actions, Read(c));
        RunSnoc(vault, ttl, st, actions + [Read(c)], Store(c));
        actions := actions + [Read(c)] + [Store(c)];
      case None =>
        FailNow(vault, ttl, s1, c);
        RunSnoc(vault, ttl, st, actions, ReadFails(c));
        actions := actions + [ReadFails(c)];
    }
  }

  lemma BeginNow(vault: Vault, ttl: nat, st: State, c: nat, text: string)
    requires c !in st.calls
    ensures Step(vault, ttl, st, Begin(c, text)) == st.(calls := st.calls[c := Call(text, st.now,
              if ParseRef(text).Some? then Parsed else Failed(st.now, ParseError))])
  {
    hide ParseRef;
  }

  /** An undisturbed call returns what the class's `ResolveWithValue` returns and leaves the
      cache it leaves, in all four outcomes. */
  lemma LoneCallIsResolve(vault: Vault, ttl: nat, st: State, c: nat, text: string) returns (actions: seq<Action>)
    requires c !in st.calls
    ensures var end := Run(vault, ttl, st, actions);
            && c in end.calls && end.calls[c].text == text && EndedAt(end.calls[c], st.now)
            && OutcomeOf(end.calls[c]).Some?
            && (OutcomeOf(end.calls[c]).value, end.cache) ==
               Resolved(st.cache, ttl, text, st.now, vault(st.now, IdOf(RefOf(text))), st.now)
  {
    hide ParseRef, CacheKey, IdOf, Step;
    actions := [] + [Begin(c, text)];
    RunSnoc(vault, ttl, st, [], Begin(c, text));
    BeginNow(vault, ttl, st, c, text);
    if ParseRef(text).Some? {
      var s1 := Run(vault, ttl, st, actions);
      var rest := ParsedCallEnds(vault, ttl, s1, c);
      RunAppend(vault, ttl, st, actions, rest);
      actions := actions + rest;
    }
  }

  // ---------- the cache is the latest fill of every key ----------

  /** The last fill, in store order, of secret `id` that contained key `name`. */
  function LatestFill(fills: seq<Fill>, id: SecretId, name: string): Option<Fill> {
    if fills == [] then None
    else
      var f := fills[|fills| - 1];
      if f.id == id && name in f.secret then Some(f)
      else LatestFill(fills[..|fills| - 1], id, name)
  }

  ghost predicate HoldsLatest(ttl: nat, st: State, id: SecretId, name: string) {
    var text := CacheKey(id, name);
    match LatestFill(st.fills, id, name)
    case None => text !in st.cache && text !in st.origins
    case Some(f) =>
      && name in f.secret
      && Lookup(st.origins, text) == Some(Origin(f, name))
      && Lookup(st.cache, text) == Some(CacheEntry(f.secret[name], f.filledAt + ttl))
  }

  lemma DifferentSecretsDifferentTexts(vault: Vault, f: Fill, now: nat, k: string, id: SecretId, name: string)
    requires SafeNames(vault) && GenuineFill(vault, now, f) && k in f.secret
    requires ValidId(id) && PlainName(name)
    ensures CacheKey(f.id, k) == CacheKey(id, name) <==> f.id == id && k == name
  {
    hide ParseRef, CacheKey;
    CacheKeyMeaning(id, name);
    CacheKeyMeaning(f.id, k);
  }

  /** A fill leaves the entry of a plainly named key alone unless it is of that secret and has
      the key. */
  lemma StoreKeepsOtherTexts(vault: Vault, ttl: nat, st: State, c: nat, id: SecretId, name: string)
    requires SafeNames(vault) && Inv(vault, ttl, st)
    requires c in st.calls && st.calls[c].phase.Fetched? && GenuineFill(vault, st.now, FillOf(st, c))
    requires ValidId(id) && PlainName(name) && !(FillOf(st, c).id == id && name in FillOf(st, c).secret)
    ensures var (st', text) := (StoreStep(ttl, st, c), CacheKey(id, name));
            Lookup(st'.cache, text) == Lookup(st.cache, text) && Lookup(st'.origins, text) == Lookup(st.origins, text)
  {
    hide CacheKey, ParseRef, RefOf, ValidId, IdOf, StoreStep, GoodEntry, GoodCall;
    var fill, st', text := FillOf(st, c), StoreStep(ttl, st, c), CacheKey(id, name);
    StoreFrame(ttl, st, c);
    StoreKeys(ttl, st, c);
    if text in st'.cache {
      var k := StoreEffect(ttl, st, c, text);
      if k.Some? {
        DifferentSecretsDifferentTexts(vault, fill, st.now, k.value, id, name);
      }
    }
  }

  lemma FetchedIsGenuine(vault: Vault, ttl: nat, st: State, c: nat)
    requires Inv(vault, ttl, st) && c in st.calls && st.calls[c].phase.Fetched?
    ensures GenuineFill(vault, st.now, FillOf(st, c))
  {
    hide CacheKey, ParseRef, RefOf, ValidId, IdOf, GoodEntry;
    assert GoodCall(vault, ttl, st.fills, st.now, st.calls[c]);
    RefOfAccepted(st.calls[c].text);
  }

  lemma StoreKeepsLatest(vault: Vault, ttl: nat, st: State, c: nat, id: SecretId, name: string)
    requires SafeNames(vault) && Inv(vault, ttl, st)
    requires c in st.calls && st.calls[c].phase.Fetched?
    requires ValidId(id) && PlainName(name) && HoldsLatest(ttl, st, id, name)
    ensures HoldsLatest(ttl, StoreStep(ttl, st, c), id, name)
  {
    hide CacheKey, ParseRef, RefOf, ValidId, IdOf, StoreStep, Inv, SafeNames;
    FetchedIsGenuine(vault, ttl, st, c);
    StoreFrame(ttl, st, c);
    assert StoreStep(ttl, st, c).fills[..|st.fills|] == st.fills;
    if FillOf(st, c).id == id && name in FillOf(st, c).secret {
      StoredText(ttl, st, c, name);
    } else {
      StoreKeepsOtherTexts(vault, ttl, st, c, id, name);
    }
  }

  lemma StoreIsStep(vault: Vault, ttl: nat, st: State, c: nat)
    requires c in st.calls && st.calls[c].phase.Fetched?
    ensures Step(vault, ttl, st, Store(c)) == StoreStep(ttl, st, c)
  {
    hide StoreStep, ParseRef, CacheKey;
  }

  lemma OnlyStoresChangeTheCache(vault: Vault, ttl: nat, st: State, a: Action)
    requires !(a.Store? && a.c in st.calls && st.calls[a.c].phase.Fetched?)
    ensures var st' := Step(vault, ttl, st, a);
            st'.cache == st.cache && st'.origins == st.origins && st'.fills == st.fills
  {
  }

  /** Main result: after any run the entry of every plainly named key is the one from the
      last fill of its secret that contained it, whatever fills of this and other secrets
      interleaved; a key no fill contained has no entry. */
  lemma {:induction false} CacheIsLatestFills(vault: Vault, ttl: nat, actions: seq<Action>, id: SecretId, name: string)
    requires SafeNames(vault) && ValidId(id) && PlainName(name)
    ensures HoldsLatest(ttl, Run(vault, ttl, INITIAL, actions), id, name)
  {
    hide CacheKey, ParseRef, RefOf, ValidId, IdOf, Step;
    if actions == [] {
    } else {
      var before, a := actions[..|actions| - 1], actions[|actions| - 1];
      CacheIsLatestFills(vault, ttl, before, id, name);
      var st := Run(vault, ttl, INITIAL, before);
      RunPreservesInv(vault, ttl, INITIAL, before);
      if a.Store? && a.c in st.calls && st.calls[a.c].phase.Fetched? {
        StoreKeepsLatest(vault, ttl, st, a.c, id, name);
        StoreIsStep(vault, ttl, st, a.c);
      } else {
        OnlyStoresChangeTheCache(vault, ttl, st, a);
      }
    }
  }

  lemma {:induction false} SameLatestFill(vault: Vault, now: nat, fills: seq<Fill>, id: SecretId, a: string, b: string)
    requires forall f | f in fills :: GenuineFill(vault, now, f)
    requires forall t | vault(t, id).Some? :: a in vault(t, id).value <==> b in vault(t, id).value
    ensures LatestFill(fills, id, a) == LatestFill(fills, id, b)
  {
    if fills == [] {
    } else {
      var f := fills[|fills| - 1];
      assert f in fills;
      SameLatestFill(vault, now, fills[..|fills| - 1], id, a, b);
    }
  }

  /** Snapshot consistency: two keys that a secret always has together are always cached
      together, from one single fetch and with one expiry. */
  lemma Snapshot(vault: Vault, ttl: nat, actions: seq<Action>, id: SecretId, a: string, b: string)
    requires SafeNames(vault) && ValidId(id) && PlainName(a) && PlainName(b)
    requires forall t | vault(t, id).Some? :: a in vault(t, id).value <==> b in vault(t, id).value
    ensures var st := Run(vault, ttl, INITIAL, actions);
            var x, y := CacheKey(id, a), CacheKey(id, b);
            && (x in st.cache <==> y in st.cache)
            && (x in st.cache ==>
                  && x in st.origins && y in st.origins
                  && st.origins[x].fill == st.origins[y].fill
                  && st.cache[x].expiresAt == st.cache[y].expiresAt)
  {
    hide CacheKey, ParseRef, ValidId;
    CacheIsLatestFills(vault, ttl, actions, id, a);
    CacheIsLatestFills(vault, ttl, actions, id, b);
    RunPreservesInv(vault, ttl, INITIAL, actions);
    var st := Run(vault, ttl, INITIAL, actions);
    SameLatestFill(vault, st.now, st.fills, id, a, b);
  }

  // ---------- how old an answer can be ----------

  /** Every fill reached the cache within `latency` of its read. */
  ghost predicate FillLatency(st: State, latency: nat) {
    forall f | f in st.fills :: f.filledAt <= f.fetchedAt + latency
  }

  ghost predicate Answers(call: Call, at: nat, value: string) {
    match call.phase
    case Served(t, v, _) => t == at && v == value
    case Filled(t, outcome, _) => t == at && outcome == Some(value)
    case _ => false
  }

  lemma AnswerAgeInState(vault: Vault, ttl: nat, st: State, c: nat, at: nat, value: string, latency: nat)
    returns (t: nat)
    requires SafeNames(vault) && Inv(vault, ttl, st)
    requires FillLatency(st, latency) && c in st.calls && Answers(st.calls[c], at, value)
    ensures var call := st.calls[c];
            && Holds(vault, t, RefOf(call.text), value)
            && call.start <= at <= st.now && t <= at
            && (call.start <= t <= at <= t + latency || (ttl > 0 && at < t + ttl + latency))
  {
    hide CacheKey, ParseRef, ValidId;
    var call := st.calls[c];
    assert GoodCall(vault, ttl, st.fills, st.now, call);
    match call.phase
    case Served(_, _, o) =>
      SafeOrigin(vault, st.fills, at, call.text, o.value);
      t := o.value.fill.fetchedAt;
    case Filled(_, _, f) =>
      t := f.fetchedAt;
  }

  /** A value answered at `at` was Vault's value for the requested reference at some instant:
      within the call itself, or less than the TTL plus the fill latency before. */
  lemma AnswerAge(vault: Vault, ttl: nat, actions: seq<Action>, c: nat, at: nat, value: string, latency: nat)
    returns (t: nat)
    requires SafeNames(vault)
    requires var st := Run(vault, ttl, INITIAL, actions);
             FillLatency(st, latency) && c in st.calls && Answers(st.calls[c], at, value)
    ensures var call := Run(vault, ttl, INITIAL, actions).calls[c];
            && Holds(vault, t, RefOf(call.text), value)
            && call.start <= at && t <= at
            && (call.start <= t <= at <= t + latency || (ttl > 0 && at < t + ttl + latency))
  {
    RunPreservesInv(vault, ttl, INITIAL, actions);
    t := AnswerAgeInState(vault, ttl, Run(vault, ttl, INITIAL, actions), c, at, value, latency);
  }

  /** An answered `None` is as genuine: Vault lacked the key at an instant within the call. */
  lemma AbsentAnswer(vault: Vault, ttl: nat, actions: seq<Action>, c: nat) returns (t: nat)
    requires var st := Run(vault, ttl, INITIAL, actions);
             c in st.calls && st.calls[c].phase.Filled? && st.calls[c].phase.outcome.None?
    ensures var call := Run(vault, ttl, INITIAL, actions).calls[c];
            && call.start <= t <= call.phase.at
            && vault(t, IdOf(RefOf(call.text))).Some?
            && RefOf(call.text).key !in vault(t, IdOf(RefOf(call.text))).value
  {
    hide CacheKey, ParseRef, ValidId;
    RunPreservesInv(vault, ttl, INITIAL, actions);
    var st := Run(vault, ttl, INITIAL, actions);
    assert GoodCall(vault, ttl, st.fills, st.now, st.calls[c]);
    t := st.calls[c].phase.fill.fetchedAt;
  }

  // ---------- no needless refetch ----------

  lemma StepKeepsExpiry(vault: Vault, ttl: nat, st: State, a: Action, text: string)
    requires Inv(vault, ttl, st) && text in st.cache
    ensures var st' := Step(vault, ttl, st, a);
            text in st'.cache && st'.cache[text].expiresAt >= st.cache[text].expiresAt
  {
    hide CacheKey, ParseRef, RefOf, ValidId, IdOf, StoreStep;
    assert GoodEntry(vault, ttl, st, text);
    if a.Store? && a.c in st.calls && st.calls[a.c].phase.Fetched? {
      StoreFrame(ttl, st, a.c);
      var k := StoreEffect(ttl, st, a.c, text);
    }
  }

  /** An entry is never removed and its expiry never moves back. */
  lemma {:induction false} ExpiryNeverDecreases(vault: Vault, ttl: nat, st: State, actions: seq<Action>, text: string)
    requires Inv(vault, ttl, st) && text in st.cache
    ensures var st' := Run(vault, ttl, st, actions);
            text in st'.cache && st'.cache[text].expiresAt >= st.cache[text].expiresAt
  {
    if actions == [] {
    } else {
      var before := actions[..|actions| - 1];
      ExpiryNeverDecreases(vault, ttl, st, before, text);
      RunPreservesInv(vault, ttl, st, before);
      StepKeepsExpiry(vault, ttl, Run(vault, ttl, st, before), actions[|actions| - 1], text);
    }
  }

  /** After a fill at instant `i`, until `i + ttl` a request for any key of the secret in
      printed form is answered from the cache, so it does not read Vault. */
  lemma NoNeedlessRefetch(vault: Vault, ttl: nat, earlier: seq<Action>, c: nat, later: seq<Action>,
                          name: string, d: nat)
    requires var st := Run(vault, ttl, INITIAL, earlier);
             && c in st.calls && st.calls[c].phase.Fetched? && name in st.calls[c].phase.secret
             && var st2 := Run(vault, ttl, Step(vault, ttl, st, Store(c)), later);
                && st2.now < st.now + ttl
                && d in st2.calls && st2.calls[d].phase.Parsed?
                && st2.calls[d].text == CacheKey(IdOf(RefOf(st.calls[c].text)), name)
    ensures var st := Run(vault, ttl, INITIAL, earlier);
            var st2 := Run(vault, ttl, Step(vault, ttl, st, Store(c)), later);
            Step(vault, ttl, st2, Look(d)).calls[d].phase.Served?
  {
    hide CacheKey, ParseRef, RefOf, ValidId, IdOf, StoreStep;
    var st := Run(vault, ttl, INITIAL, earlier);
    RunPreservesInv(vault, ttl, INITIAL, earlier);
    StoredText(ttl, st, c, name);
    StepPreservesInv(vault, ttl, st, Store(c));
    ExpiryNeverDecreases(vault, ttl, Step(vault, ttl, st, Store(c)), later, CacheKey(FillOf(st, c).id, name));
  }

  // ---------- which texts can hit at all ----------

  ghost predicate CanHit(ttl: nat, text: string) {
    exists vault: Vault, actions ::
      && SafeNames(vault) && ParseRef(text).Some?
      && Hit(Run(vault, ttl, INITIAL, actions).cache, text, Run(vault, ttl, INITIAL, actions).now).Some?
  }

  lemma CacheKeyPrints(id: SecretId, name: string)
    ensures CacheKey(id, name) == PrintRef(RefTo(id, name))
  {
  }

  lemma NormalFormHits(ttl: nat, text: string)
    requires ttl > 0 && NormalForm(text)
    ensures CanHit(ttl, text)
  {
    hide CacheKey, ParseRef;
    var r := RefOf(text);
    var vault: Vault := (t, id) => Some(map[r.key := "x"]);
    AcceptedIsWellFormed(text);
    forall t, id, name | ValidId(id) && vault(t, id).Some? && name in vault(t, id).value
      ensures SafeName(id, name)
    {
      CacheKeyMeaning(id, name);
    }
    var actions := FetchRun(vault, ttl, text, 0, 0);
    CacheKeyPrints(IdOf(r), r.key);
    assert RefTo(IdOf(r), r.key) == r;
    assert Lookup(Run(vault, ttl, INITIAL, actions).cache, text) == Some(CacheEntry("x", ttl));
  }

  /** Main result: a request can be answered from the cache exactly when it is spelled as the
      backend prints it (and caching is on), so a missing `/data/`, `#003` and `#+3` always
      read Vault. */
  lemma HitsExactlyNormalForms(ttl: nat, text: string)
    ensures CanHit(ttl, text) <==> ttl > 0 && NormalForm(text)
  {
    hide CacheKey, ParseRef;
    if CanHit(ttl, text) {
      var vault: Vault, actions :|
        && SafeNames(vault) && ParseRef(text).Some?
        && Hit(Run(vault, ttl, INITIAL, actions).cache, text, Run(vault, ttl, INITIAL, actions).now).Some?;
      var st := Run(vault, ttl, INITIAL, actions);
      RunPreservesInv(vault, ttl, INITIAL, actions);
      assert GoodEntry(vault, ttl, st, text);
      SafeOrigin(vault, st.fills, st.now, text, st.origins[text]);
      CacheKeyPrints(st.origins[text].fill.id, st.origins[text].name);
    }
    if ttl > 0 && NormalForm(text) {
      NormalFormHits(ttl, text);
    }
  }
}
