/** Any number of concurrent `resolve_with_value` calls against one shared cache, a clock that
    only moves forward, and a Vault whose contents are an arbitrary function of time. Each
    lock-protected section and the Vault read are one step; steps of different calls
    interleave freely. A step that is not enabled leaves the state alone, so every sequence of
    actions is a run. */
module VaultMachine {
  import opened Common
  import opened VaultRefs
  import opened VaultCache

  /** What Vault holds for a secret at an instant; `None` when the read is refused. */
  type Vault = (nat, SecretId) -> Option<Secret>

  /** One completed Vault read, from the call that made it to the fill that stored it. */
  datatype Fill = Fill(call: nat, id: SecretId, fetchedAt: nat, filledAt: nat, secret: Secret)

  /** History: the fill and the key name a cache entry stems from. */
  datatype Origin = Origin(fill: Fill, name: string)

  datatype Phase =
    | Parsed
    | Missed
    | Fetched(fetchedAt: nat, secret: Secret)
    | Served(at: nat, value: string, origin: Option<Origin>) // answered from the cache
    | Filled(at: nat, outcome: Option<string>, fill: Fill) // answered from its own read
    | Failed(at: nat, error: Outcome)

  datatype Call = Call(text: string, start: nat, phase: Phase)

  datatype State = State(
    now: nat,
    cache: map<string, CacheEntry>,
    calls: map<nat, Call>,
    origins: map<string, Origin>,  // history, never consulted by a step
    fills: seq<Fill>)              // history in store order, never consulted by a step

  datatype Action =
    | Tick(d: nat)
    | Begin(c: nat, text: string)
    | Look(c: nat)
    | Read(c: nat)
    | ReadFails(c: nat)
    | Store(c: nat)

  const INITIAL := State(0, map[], map[], map[], [])

  function InPhase(st: State, c: nat, phase: Phase): State
    requires c in st.calls
  {
    st.(calls := st.calls[c := st.calls[c].(phase := phase)])
  }

  function RefOf(text: string): VaultRef {
    match ParseRef(text) case Some(r) => r case None => VaultRef("", "", "", None)
  }

  function LookStep(st: State, c: nat): State
    requires c in st.calls
  {
    var call := st.calls[c];
    match Hit(st.cache, call.text, st.now)
    case None => InPhase(st, c, Missed)
    case Some(v) => InPhase(st, c, Served(st.now, v, Lookup(st.origins, call.text)))
  }

  /** The fill that the store step of call `c` records. */
  function FillOf(st: State, c: nat): Fill
    requires c in st.calls && st.calls[c].phase.Fetched?
  {
    var call := st.calls[c];
    Fill(c, IdOf(RefOf(call.text)), call.phase.fetchedAt, st.now, call.phase.secret)
  }

  function Origins(fill: Fill): map<string, Origin> {
    map k | k in fill.secret :: Origin(fill, k)
  }

  function StoreStep(ttl: nat, st: State, c: nat): State
    requires c in st.calls && st.calls[c].phase.Fetched?
  {
    var fill := FillOf(st, c);
    InPhase(st, c, Filled(st.now, Lookup(fill.secret, RefOf(st.calls[c].text).key), fill))
    .(cache := InsertAll(st.cache, fill.id, Entries(fill.secret, st.now + ttl)),
      origins := InsertAll(st.origins, fill.id, Origins(fill)),
      fills := st.fills + [fill])
  }

  function Step(vault: Vault, ttl: nat, st: State, a: Action): State {
    match a
    case Tick(d) => st.(now := st.now + d)
    case Begin(c, text) =>
      if c in st.calls then st
      else
        var phase := if ParseRef(text).Some? then Parsed else Failed(st.now, ParseError);
        st.(calls := st.calls[c := Call(text, st.now, phase)])
    case Look(c) =>
      if c in st.calls && st.calls[c].phase.Parsed? then LookStep(st, c) else st
    case Read(c) =>
      if c in st.calls && st.calls[c].phase.Missed? then
        match vault(st.now, IdOf(RefOf(st.calls[c].text)))
        case Some(secret) => InPhase(st, c, Fetched(st.now, secret))
        case None => st
      else st
    case ReadFails(c) =>
      if c in st.calls && st.calls[c].phase.Missed? then InPhase(st, c, Failed(st.now, ReadError)) else st
    case Store(c) =>
      if c in st.calls && st.calls[c].phase.Fetched? then StoreStep(ttl, st, c) else st
  }

  function Run(vault: Vault, ttl: nat, st: State, actions: seq<Action>): State {
    if actions == [] then st
    else Step(vault, ttl, Run(vault, ttl, st, actions[..|actions| - 1]), actions[|actions| - 1])
  }

  // ---------- the invariant ----------

  ghost predicate GenuineFill(vault: Vault, now: nat, f: Fill) {
    && ValidId(f.id)
    && f.fetchedAt <= f.filledAt <= now
    && vault(f.fetchedAt, f.id) == Some(f.secret)
  }

  ghost predicate GenuineOrigin(vault: Vault, fills: seq<Fill>, now: nat, text: string, o: Origin) {
    && o.fill in fills
    && GenuineFill(vault, now, o.fill)
    && o.name in o.fill.secret
    && text == CacheKey(o.fill.id, o.name)
  }

  ghost predicate GoodEntry(vault: Vault, ttl: nat, st: State, text: string) {
    && text in st.origins
    && text in st.cache
    && GenuineOrigin(vault, st.fills, st.now, text, st.origins[text])
    && var o := st.origins[text];
       st.cache[text] == CacheEntry(o.fill.secret[o.name], o.fill.filledAt + ttl)
  }

  ghost predicate GoodCall(vault: Vault, ttl: nat, fills: seq<Fill>, now: nat, call: Call) {
    && call.start <= now
    && (!(call.phase.Failed? && call.phase.error.ParseError?) ==> ParseRef(call.text).Some?)
    && match call.phase
       case Parsed => true
       case Missed => true
       case Fetched(t, secret) =>
         call.start <= t <= now && vault(t, IdOf(RefOf(call.text))) == Some(secret)
       case Served(at, v, o) =>
         && call.start <= at <= now
         && o.Some? && GenuineOrigin(vault, fills, at, call.text, o.value)
         && v == o.value.fill.secret[o.value.name] && at < o.value.fill.filledAt + ttl
       case Filled(at, outcome, f) =>
         && f in fills && GenuineFill(vault, at, f)
         && call.start <= f.fetchedAt && f.filledAt == at <= now
         && f.id == IdOf(RefOf(call.text)) && outcome == Lookup(f.secret, RefOf(call.text).key)
       case Failed(at, e) => call.start <= at <= now && !e.Answer?
  }

  ghost predicate Inv(vault: Vault, ttl: nat, st: State) {
    && st.origins.Keys == st.cache.Keys
    && (forall text | text in st.cache :: GoodEntry(vault, ttl, st, text))
    && (forall c | c in st.calls :: GoodCall(vault, ttl, st.fills, st.now, st.calls[c]))
    && (forall f | f in st.fills :: GenuineFill(vault, st.now, f))
  }

  lemma RefOfAccepted(text: string)
    requires ParseRef(text).Some?
    ensures ValidId(IdOf(RefOf(text)))
    ensures ParseRef(text) == Some(RefOf(text))
  {
    AcceptedIsWellFormed(text);
  }

  lemma StoreMaps(ttl: nat, st: State, c: nat)
    requires c in st.calls && st.calls[c].phase.Fetched?
    ensures var (st', fill) := (StoreStep(ttl, st, c), FillOf(st, c));
            && st'.cache == InsertAll(st.cache, fill.id, Entries(fill.secret, st.now + ttl))
            && st'.origins == InsertAll(st.origins, fill.id, Origins(fill))
  {
    hide InsertAll, Entries, Origins, FillOf, RefOf, ParseRef, CacheKey, Lookup;
  }

  /** What a fill does to each cached text: `name` is the key it was replaced for, if any. */
  lemma StoreEffect(ttl: nat, st: State, c: nat, text: string) returns (name: Option<string>)
    requires c in st.calls && st.calls[c].phase.Fetched?
    requires text in StoreStep(ttl, st, c).cache && st.origins.Keys == st.cache.Keys
    ensures text in StoreStep(ttl, st, c).origins
    ensures var (st', fill) := (StoreStep(ttl, st, c), FillOf(st, c));
            match name
            case Some(k) =>
              && k in fill.secret && text == CacheKey(fill.id, k)
              && st'.origins[text] == Origin(fill, k)
              && st'.cache[text] == CacheEntry(fill.secret[k], st.now + ttl)
            case None =>
              && text in st.cache && st'.cache[text] == st.cache[text]
              && st'.origins[text] == st.origins[text]
              && forall k | k in fill.secret :: text != CacheKey(fill.id, k)
  {
    hide CacheKey, RefOf, ParseRef, IdOf, StoreStep, InsertAll;
    var fill := FillOf(st, c);
    StoreMaps(ttl, st, c);
    if k :| k in fill.secret && text == CacheKey(fill.id, k) {
      name := Some(k);
      assert k in Entries(fill.secret, st.now + ttl) && k in Origins(fill);
    } else {
      name := None;
    }
  }

  /** What a fill does to the rest of the state. */
  lemma StoreFrame(ttl: nat, st: State, c: nat)
    requires c in st.calls && st.calls[c].phase.Fetched?
    ensures var (st', fill) := (StoreStep(ttl, st, c), FillOf(st, c));
            && st'.now == st.now && st'.fills == st.fills + [fill]
            && st'.calls == st.calls[c := st.calls[c].(phase :=
                 Filled(st.now, Lookup(fill.secret, RefOf(st.calls[c].text).key), fill))]
            && (forall text | text in st.cache :: text in st'.cache)
  {
  }

  lemma StoredText(ttl: nat, st: State, c: nat, k: string)
    requires c in st.calls && st.calls[c].phase.Fetched? && k in st.calls[c].phase.secret
    ensures var (st', fill) := (StoreStep(ttl, st, c), FillOf(st, c));
            var text := CacheKey(fill.id, k);
            && text in st'.cache && text in st'.origins
            && st'.cache[text] == CacheEntry(fill.secret[k], st.now + ttl)
            && st'.origins[text] == Origin(fill, k)
  {
    hide CacheKey, RefOf, IdOf, ParseRef;
  }

  lemma StoreKeys(ttl: nat, st: State, c: nat)
    requires c in st.calls && st.calls[c].phase.Fetched? && st.origins.Keys == st.cache.Keys
    ensures StoreStep(ttl, st, c).origins.Keys == StoreStep(ttl, st, c).cache.Keys
  {
  }

  lemma StoreKeepsEntriesGood(vault: Vault, ttl: nat, st: State, c: nat, text: string)
    requires Inv(vault, ttl, st) && c in st.calls && st.calls[c].phase.Fetched?
    requires text in StoreStep(ttl, st, c).cache
    ensures GoodEntry(vault, ttl, StoreStep(ttl, st, c), text)
  {
    hide StoreStep, CacheKey, RefOf, ParseRef, ValidId, IdOf;
    assert GoodCall(vault, ttl, st.fills, st.now, st.calls[c]);
    RefOfAccepted(st.calls[c].text);
    var name := StoreEffect(ttl, st, c, text);
    StoreFrame(ttl, st, c);
    assert text in st.cache ==> GoodEntry(vault, ttl, st, text);
  }

  lemma StorePreservesInv(vault: Vault, ttl: nat, st: State, c: nat)
    requires Inv(vault, ttl, st) && c in st.calls && st.calls[c].phase.Fetched?
    ensures Inv(vault, ttl, StoreStep(ttl, st, c))
  {
    hide StoreStep, CacheKey, RefOf, ParseRef, ValidId, IdOf, GoodEntry;
    var st' := StoreStep(ttl, st, c);
    assert GoodCall(vault, ttl, st.fills, st.now, st.calls[c]);
    RefOfAccepted(st.calls[c].text);
    StoreFrame(ttl, st, c);
    forall text | text in st'.cache ensures GoodEntry(vault, ttl, st', text) {
      StoreKeepsEntriesGood(vault, ttl, st, c, text);
    }
    StoreKeys(ttl, st, c);
    assert GenuineFill(vault, st.now, FillOf(st, c));
    forall d | d in st'.calls ensures GoodCall(vault, ttl, st'.fills, st'.now, st'.calls[d]) {
      assert d in st.calls && GoodCall(vault, ttl, st.fills, st.now, st.calls[d]);
    }
  }

  lemma LookKeepsCallGood(vault: Vault, ttl: nat, st: State, c: nat)
    requires Inv(vault, ttl, st) && c in st.calls && st.calls[c].phase.Parsed?
    ensures GoodCall(vault, ttl, st.fills, st.now, LookStep(st, c).calls[c])
  {
    hide CacheKey, ParseRef, ValidId, IdOf, RefOf;
    assert GoodCall(vault, ttl, st.fills, st.now, st.calls[c]);
    if st.calls[c].text in st.cache {
      assert GoodEntry(vault, ttl, st, st.calls[c].text);
    }
  }

  lemma OtherStepKeepsCallGood(vault: Vault, ttl: nat, st: State, a: Action, c: nat)
    requires Inv(vault, ttl, st) && c in Step(vault, ttl, st, a).calls
    requires !(a.Store? && a.c in st.calls && st.calls[a.c].phase.Fetched?)
    ensures var st' := Step(vault, ttl, st, a);
            GoodCall(vault, ttl, st'.fills, st'.now, st'.calls[c])
  {
    hide CacheKey, ParseRef, ValidId, IdOf, RefOf, StoreStep, GoodEntry;
    assert c in st.calls ==> GoodCall(vault, ttl, st.fills, st.now, st.calls[c]);
    if a == Look(c) && c in st.calls && st.calls[c].phase.Parsed? {
      LookKeepsCallGood(vault, ttl, st, c);
    }
  }

  lemma OtherStepPreservesInv(vault: Vault, ttl: nat, st: State, a: Action)
    requires Inv(vault, ttl, st)
    requires !(a.Store? && a.c in st.calls && st.calls[a.c].phase.Fetched?)
    ensures Inv(vault, ttl, Step(vault, ttl, st, a))
  {
    hide CacheKey, ParseRef, ValidId, IdOf, RefOf, StoreStep, GoodCall;
    assert forall text | text in st.cache :: GoodEntry(vault, ttl, st, text);
    var st' := Step(vault, ttl, st, a);
    forall c | c in st'.calls ensures GoodCall(vault, ttl, st'.fills, st'.now, st'.calls[c]) {
      OtherStepKeepsCallGood(vault, ttl, st, a, c);
    }
  }

  lemma StepPreservesInv(vault: Vault, ttl: nat, st: State, a: Action)
    requires Inv(vault, ttl, st)
    ensures Inv(vault, ttl, Step(vault, ttl, st, a))
  {
    hide CacheKey, ParseRef, ValidId, IdOf, Inv, Hit;
    if a.Store? && a.c in st.calls && st.calls[a.c].phase.Fetched? {
      StorePreservesInv(vault, ttl, st, a.c);
    } else {
      OtherStepPreservesInv(vault, ttl, st, a);
    }
  }

  lemma {:induction false} RunPreservesInv(vault: Vault, ttl: nat, st: State, actions: seq<Action>)
    requires Inv(vault, ttl, st)
    ensures Inv(vault, ttl, Run(vault, ttl, st, actions))
  {
    if actions == [] {
    } else {
      var before := actions[..|actions| - 1];
      RunPreservesInv(vault, ttl, st, before);
      StepPreservesInv(vault, ttl, Run(vault, ttl, st, before), actions[|actions| - 1]);
    }
  }
}
