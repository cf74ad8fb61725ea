/** The Java hook's map: a TTL cache whose check and whose update are two separate locked
    sections, called by any number of threads. The machine below also covers the Python hook,
    whose environment can be assigned and deleted while lookups run. */
module TtlProxy {
  import opened Common

  datatype Entry = Entry(value: Option<string>, timestamp: int)

  predicate Live(e: Entry, now: int, ttl: nat) {
    now - e.timestamp < ttl
  }

  /** With TTL 0 an entry is never used, unless the wall clock has stepped back behind it. */
  lemma ZeroTtl(e: Entry, now: int)
    ensures Live(e, now, 0) <==> now < e.timestamp
  {
  }

  function Cached(cache: map<string, Entry>, key: string, now: int, ttl: nat): Option<Entry> {
    if key in cache && Live(cache[key], now, ttl) then Some(cache[key]) else None
  }

  /** One uninterrupted lookup: the answer and the cache it leaves. */
  function Got(original: map<string, string>, cache: map<string, Entry>, ttl: nat, key: string,
               agent: (string, Option<string>) -> Option<string>, checkAt: int, putAt: int)
    : (Option<string>, map<string, Entry>)
  {
    if key in original && !(VAULT_PREFIX <= original[key]) then (Some(original[key]), cache)
    else match Cached(cache, key, checkAt, ttl)
      case Some(e) => (e.value, cache)
      case None =>
        var value := agent(key, Lookup(original, key));
        (value, cache[key := Entry(value, putAt)])
  }

  class EnvProxyMap {
    const original: map<string, string>
    const cacheTtlMs: nat
    var cache: map<string, Entry>

    constructor (original: map<string, string>, cacheTtlMs: nat)
      ensures this.original == original && this.cacheTtlMs == cacheTtlMs && cache == map[]
    {
      this.original := original;
      this.cacheTtlMs := cacheTtlMs;
      this.cache := map[];
    }

    /** The first locked section. */
    method CheckCache(key: string, now: int) returns (r: Option<Entry>)
      ensures r == Cached(cache, key, now, cacheTtlMs)
      ensures r == if key in cache && now - cache[key].timestamp < cacheTtlMs then Some(cache[key]) else None
    {
      if key in cache && now - cache[key].timestamp < cacheTtlMs {
        return Some(cache[key]);
      }
      return None;
    }

    /** The second locked section. */
    method PutCache(key: string, value: Option<string>, now: int)
      modifies this
      ensures cache == old(cache)[key := Entry(value, now)]
    {
      cache := cache[key := Entry(value, now)];
    }

    /** One uninterrupted lookup; `agent` answers a key with the reference sent along. */
    method Get(key: string, agent: (string, Option<string>) -> Option<string>, checkAt: int, putAt: int)
      returns (r: Option<string>)
      modifies this
      ensures (r, cache) == Got(original, old(cache), cacheTtlMs, key, agent, checkAt, putAt)
      ensures key in original && !("vault:" <= original[key])
              ==> r == Some(original[key]) && cache == old(cache)
      ensures (key in original ==> "vault:" <= original[key])
              && key in old(cache) && checkAt - old(cache)[key].timestamp < cacheTtlMs
              ==> r == old(cache)[key].value && cache == old(cache)
      ensures (key in original ==> "vault:" <= original[key])
              && !(key in old(cache) && checkAt - old(cache)[key].timestamp < cacheTtlMs)
              ==> && r == agent(key, if key in original then Some(original[key]) else None)
                  && cache == old(cache)[key := Entry(r, putAt)]
    {
      if key in original && !(VAULT_PREFIX <= original[key]) {
        return Some(original[key]);
      }
      var entry := CheckCache(key, checkAt);
      if entry.Some? {
        return entry.value.value;
      }
      var resolved := agent(key, Lookup(original, key));
      PutCache(key, resolved, putAt);
      return resolved;
    }

    method ContainsKey(key: string, agent: (string, Option<string>) -> Option<string>, checkAt: int, putAt: int)
      returns (r: bool)
      modifies this
      ensures key in original ==> r && cache == old(cache)
      ensures key !in original && key in old(cache) && checkAt - old(cache)[key].timestamp < cacheTtlMs
              ==> (r <==> old(cache)[key].value.Some?) && cache == old(cache)
      ensures key !in original && !(key in old(cache) && checkAt - old(cache)[key].timestamp < cacheTtlMs)
              ==> (r <==> agent(key, None).Some?) && cache == old(cache)[key := Entry(agent(key, None), putAt)]
    {
      if key in original {
        return true;
      }
      var value := Get(key, agent, checkAt, putAt);
      return value.Some?;
    }
  }

  // ---------- many threads ----------

  /** The agent's answer at each instant to a query for a key with the binding sent along. */
  type Answers = (nat, string, Option<string>) -> Option<string>

  /** History: the query behind an answer. It carried `binding`, read when its lookup began. */
  datatype Origin = Origin(begunAt: nat, askedAt: nat, binding: Option<string>)

  datatype Phase =
    | Checking
    | Missed
    | Asked(askedAt: nat, value: Option<string>)
    | Returned(at: nat, value: Option<string>, origin: Option<Origin>)  // no origin: the real value

  datatype Call = Call(key: string, binding: Option<string>, start: nat, phase: Phase)

  /** `origins` is history. */
  datatype State = State(
    now: nat,
    env: map<string, string>,
    cache: map<string, Entry>,
    calls: map<nat, Call>,
    origins: map<string, Origin>)

  /** `Assign`, `Delete` and `Forget` are Python's: the environment changes in one statement
      and the entry is dropped in a later one. */
  datatype Action =
    | Tick(d: nat)
    | Begin(c: nat, key: string)
    | Check(c: nat)
    | Ask(c: nat)
    | Put(c: nat)
    | Assign(key: string, value: string)
    | Delete(key: string)
    | Forget(key: string)

  function Initial(env: map<string, string>): State {
    State(0, env, map[], map[], map[])
  }

  function InPhase(st: State, c: nat, phase: Phase): State
    requires c in st.calls
  {
    st.(calls := st.calls[c := st.calls[c].(phase := phase)])
  }

  function CheckStep(ttl: nat, st: State, c: nat): State
    requires c in st.calls
  {
    match Cached(st.cache, st.calls[c].key, st.now, ttl)
    case Some(e) => InPhase(st, c, Returned(st.now, e.value, Lookup(st.origins, st.calls[c].key)))
    case None => InPhase(st, c, Missed)
  }

  function PutStep(st: State, c: nat): State
    requires c in st.calls && st.calls[c].phase.Asked?
  {
    var call := st.calls[c];
    var origin := Origin(call.start, call.phase.askedAt, call.binding);
    InPhase(st, c, Returned(st.now, call.phase.value, Some(origin)))
    .(cache := st.cache[call.key := Entry(call.phase.value, st.now)], origins := st.origins[call.key := origin])
  }

  function Step(answers: Answers, ttl: nat, st: State, a: Action): State {
    match a
    case Tick(d) => st.(now := st.now + d)
    case Begin(c, key) =>
      if c in st.calls then st
      else
        var binding := Lookup(st.env, key);
        var isReal := binding.Some? && !(VAULT_PREFIX <= binding.value);
        var phase := if isReal then Returned(st.now, binding, None) else Checking;
        st.(calls := st.calls[c := Call(key, binding, st.now, phase)])
    case Check(c) =>
      if c in st.calls && st.calls[c].phase.Checking? then CheckStep(ttl, st, c) else st
    case Ask(c) =>
      if c in st.calls && st.calls[c].phase.Missed? then
        InPhase(st, c, Asked(st.now, answers(st.now, st.calls[c].key, st.calls[c].binding)))
      else st
    case Put(c) =>
      if c in st.calls && st.calls[c].phase.Asked? then PutStep(st, c) else st
    case Assign(key, value) => st.(env := st.env[key := value])
    case Delete(key) => st.(env := st.env - {key})
    case Forget(key) => st.(cache := st.cache - {key}, origins := st.origins - {key})
  }

  function Run(answers: Answers, ttl: nat, env: map<string, string>, actions: seq<Action>): State {
    if actions == [] then Initial(env)
    else Step(answers, ttl, Run(answers, ttl, env, actions[..|actions| - 1]), actions[|actions| - 1])
  }

  // ---------- the invariant ----------

  /** What the key is bound to after the first `n` actions. */
  function BindingAfter(answers: Answers, ttl: nat, env: map<string, string>, actions: seq<Action>, n: nat,
                        key: string): Option<string>
    requires n <= |actions|
  {
    Lookup(Run(answers, ttl, env, actions[..n]).env, key)
  }

  /** At instant `at` of the run the key was bound to `binding`. */
  ghost predicate BoundAt(answers: Answers, ttl: nat, env: map<string, string>, actions: seq<Action>,
                          key: string, binding: Option<string>, at: nat)
  {
    exists n: nat | n <= |actions| ::
      BindingAfter(answers, ttl, env, actions, n, key) == binding && Run(answers, ttl, env, actions[..n]).now == at
  }

  /** The value is what the agent answered to the recorded query. */
  predicate GoodOrigin(answers: Answers, key: string, value: Option<string>, o: Origin) {
    o.begunAt <= o.askedAt && value == answers(o.askedAt, key, o.binding)
  }

  ghost predicate GoodCall(answers: Answers, ttl: nat, limit: nat, now: nat, call: Call) {
    && call.start <= now
    && match call.phase
       case Checking => true
       case Missed => true
       case Asked(t, v) => call.start <= t <= now && v == answers(t, call.key, call.binding)
       case Returned(at, v, o) =>
         && call.start <= at <= now
         && (o.None? ==> v == call.binding && v.Some?)
         && (o.Some? ==>
               && GoodOrigin(answers, call.key, v, o.value) && o.value.askedAt <= at
               && (o.value == Origin(call.start, o.value.askedAt, call.binding)
                   || at < o.value.begunAt + ttl + limit))
  }

  ghost predicate GoodEntry(answers: Answers, st: State, key: string) {
    && key in st.cache && key in st.origins
    && GoodOrigin(answers, key, st.cache[key].value, st.origins[key])
    && st.origins[key].askedAt <= st.cache[key].timestamp <= st.now
  }

  ghost predicate Inv(answers: Answers, ttl: nat, limit: nat, st: State) {
    && (forall key | key in st.cache :: GoodEntry(answers, st, key))
    && (forall c | c in st.calls :: GoodCall(answers, ttl, limit, st.now, st.calls[c]))
  }

  /** Every entry was stored within `limit` of the beginning of its lookup. */
  ghost predicate StoredWithin(st: State, limit: nat) {
    forall key | key in st.cache && key in st.origins :: st.cache[key].timestamp <= st.origins[key].begunAt + limit
  }

  /** The same all along the run. */
  ghost predicate Prompt(answers: Answers, ttl: nat, limit: nat, env: map<string, string>, actions: seq<Action>) {
    forall n | 0 <= n <= |actions| :: StoredWithin(Run(answers, ttl, env, actions[..n]), limit)
  }

  lemma StepInv(answers: Answers, ttl: nat, limit: nat, st: State, a: Action)
    requires Inv(answers, ttl, limit, st) && StoredWithin(st, limit)
    ensures Inv(answers, ttl, limit, Step(answers, ttl, st, a))
  {
  }

  lemma {:induction false} RunInv(answers: Answers, ttl: nat, limit: nat, env: map<string, string>,
                                  actions: seq<Action>)
    requires Prompt(answers, ttl, limit, env, actions)
    ensures Inv(answers, ttl, limit, Run(answers, ttl, env, actions))
  {
    hide Step;
    if actions == [] {
    } else {
      var before := actions[..|actions| - 1];
      forall n | 0 <= n <= |before| ensures StoredWithin(Run(answers, ttl, env, before[..n]), limit) {
        assert before[..n] == actions[..n];
      }
      RunInv(answers, ttl, limit, env, before);
      assert before[..|before|] == before;
      assert StoredWithin(Run(answers, ttl, env, before), limit);
      StepInv(answers, ttl, limit, Run(answers, ttl, env, before), actions[|actions| - 1]);
    }
  }

  // ---------- the bindings that queries carry ----------

  ghost predicate Traced(answers: Answers, ttl: nat, env: map<string, string>, actions: seq<Action>, st: State) {
    && (forall c | c in st.calls ::
          && BoundAt(answers, ttl, env, actions, st.calls[c].key, st.calls[c].binding, st.calls[c].start)
          && (st.calls[c].phase.Returned? && st.calls[c].phase.origin.Some? ==>
                var o := st.calls[c].phase.origin.value;
                BoundAt(answers, ttl, env, actions, st.calls[c].key, o.binding, o.begunAt)))
    && (forall key | key in st.origins ::
          BoundAt(answers, ttl, env, actions, key, st.origins[key].binding, st.origins[key].begunAt))
  }

  lemma StillBoundAt(answers: Answers, ttl: nat, env: map<string, string>, actions: seq<Action>, a: Action, st: State)
    requires Traced(answers, ttl, env, actions, st)
    ensures Traced(answers, ttl, env, actions + [a], st)
  {
    forall key, binding, at | BoundAt(answers, ttl, env, actions, key, binding, at)
      ensures BoundAt(answers, ttl, env, actions + [a], key, binding, at)
    {
      var n: nat :| n <= |actions| && BindingAfter(answers, ttl, env, actions, n, key) == binding
                    && Run(answers, ttl, env, actions[..n]).now == at;
      assert (actions + [a])[..n] == actions[..n];
      assert BindingAfter(answers, ttl, env, actions + [a], n, key) == binding;
    }
  }

  lemma BoundNow(answers: Answers, ttl: nat, env: map<string, string>, actions: seq<Action>, key: string)
    ensures var st := Run(answers, ttl, env, actions);
            BoundAt(answers, ttl, env, actions, key, Lookup(st.env, key), st.now)
  {
    assert actions[..|actions|] == actions;
    assert BindingAfter(answers, ttl, env, actions, |actions|, key) ==
           Lookup(Run(answers, ttl, env, actions).env, key);
  }

  lemma StepTraced(answers: Answers, ttl: nat, env: map<string, string>, actions: seq<Action>, st: State, a: Action)
    requires Traced(answers, ttl, env, actions, st)
    requires a.Begin? ==> BoundAt(answers, ttl, env, actions, a.key, Lookup(st.env, a.key), st.now)
    ensures Traced(answers, ttl, env, actions, Step(answers, ttl, st, a))
  {
    hide BoundAt;
  }

  lemma {:induction false} RunTraced(answers: Answers, ttl: nat, env: map<string, string>, actions: seq<Action>)
    ensures Traced(answers, ttl, env, actions, Run(answers, ttl, env, actions))
  {
    if actions == [] {
    } else {
      var before, a := actions[..|actions| - 1], actions[|actions| - 1];
      RunTraced(answers, ttl, env, before);
      StillBoundAt(answers, ttl, env, before, a, Run(answers, ttl, env, before));
      assert before + [a] == actions;
      var st := Run(answers, ttl, env, before);
      if a.Begin? {
        BoundNow(answers, ttl, env, before, a.key);
        BoundNow(answers, ttl, env, actions, a.key);
      }
      StepTraced(answers, ttl, env, actions, st, a);
    }
  }

  // ---------- cached lookups refine uncached ones ----------

  /** The instants the answer to a call may stem from: the call itself, or the last
      `ttl + limit` instants before it returned. */
  predicate InWindow(call: Call, ttl: nat, limit: nat, t: nat) {
    call.phase.Returned? && t <= call.phase.at && (call.start <= t || call.phase.at < t + ttl + limit)
  }

  /** Main result: with any number of threads, and bindings assigned and deleted at any time,
      an answer (absent ones included) is the agent's at one instant of the window, for a
      binding the key had at one instant of the window. So it is what an uncached lookup
      returns if neither made a difference during the window. */
  lemma RefinesUncached(answers: Answers, ttl: nat, limit: nat, env: map<string, string>, actions: seq<Action>, c: nat)
    requires Prompt(answers, ttl, limit, env, actions)
    requires var st := Run(answers, ttl, env, actions);
             c in st.calls && st.calls[c].phase.Returned? && st.calls[c].phase.origin.Some?
    ensures var call := Run(answers, ttl, env, actions).calls[c];
            exists t: nat, n: nat | n <= |actions| ::
              && InWindow(call, ttl, limit, t) && InWindow(call, ttl, limit, Run(answers, ttl, env, actions[..n]).now)
              && call.phase.value == answers(t, call.key, BindingAfter(answers, ttl, env, actions, n, call.key))
    ensures var call := Run(answers, ttl, env, actions).calls[c];
            (forall t: nat, n: nat | n <= |actions| && InWindow(call, ttl, limit, t)
                                     && InWindow(call, ttl, limit, Run(answers, ttl, env, actions[..n]).now) ::
               answers(t, call.key, BindingAfter(answers, ttl, env, actions, n, call.key)) ==
               answers(call.phase.at, call.key, call.binding))
            ==> call.phase.value == answers(call.phase.at, call.key, call.binding)
  {
    RunInv(answers, ttl, limit, env, actions);
    RunTraced(answers, ttl, env, actions);
    var st := Run(answers, ttl, env, actions);
    var call := st.calls[c];
    var o := call.phase.origin.value;
    assert GoodCall(answers, ttl, limit, st.now, call);
    assert BoundAt(answers, ttl, env, actions, call.key, o.binding, o.begunAt);
    var n: nat :| n <= |actions| && BindingAfter(answers, ttl, env, actions, n, call.key) == o.binding
                  && Run(answers, ttl, env, actions[..n]).now == o.begunAt;
    assert InWindow(call, ttl, limit, o.askedAt);
    assert call.phase.value == answers(o.askedAt, call.key, BindingAfter(answers, ttl, env, actions, n, call.key));
  }

  /** A real value is returned as it was bound when the lookup began. */
  lemma RealValues(answers: Answers, ttl: nat, limit: nat, env: map<string, string>, actions: seq<Action>, c: nat)
    requires Prompt(answers, ttl, limit, env, actions)
    requires var st := Run(answers, ttl, env, actions);
             c in st.calls && st.calls[c].phase.Returned? && st.calls[c].phase.origin.None?
    ensures var call := Run(answers, ttl, env, actions).calls[c];
            call.phase.value.Some? && BoundAt(answers, ttl, env, actions, call.key, call.phase.value, call.start)
  {
    RunInv(answers, ttl, limit, env, actions);
    RunTraced(answers, ttl, env, actions);
    var st := Run(answers, ttl, env, actions);
    assert GoodCall(answers, ttl, limit, st.now, st.calls[c]);
  }

  // ---------- with TTL 0 nothing is cached ----------

  ghost predicate OwnAnswer(answers: Answers, now: nat, call: Call) {
    && call.start <= now
    && (call.phase.Asked? ==> && call.start <= call.phase.askedAt <= now
                              && call.phase.value == answers(call.phase.askedAt, call.key, call.binding))
    && (call.phase.Returned? && call.phase.origin.Some? ==>
          && call.start <= call.phase.origin.value.askedAt <= call.phase.at <= now
          && call.phase.value == answers(call.phase.origin.value.askedAt, call.key, call.binding))
  }

  ghost predicate UncachedInv(answers: Answers, st: State) {
    && (forall key | key in st.cache :: st.cache[key].timestamp <= st.now)
    && (forall c | c in st.calls :: OwnAnswer(answers, st.now, st.calls[c]))
  }

  lemma ZeroTtlStep(answers: Answers, st: State, a: Action)
    requires UncachedInv(answers, st)
    ensures UncachedInv(answers, Step(answers, 0, st, a))
  {
  }

  lemma {:induction false} ZeroTtlRun(answers: Answers, env: map<string, string>, actions: seq<Action>)
    ensures UncachedInv(answers, Run(answers, 0, env, actions))
  {
    hide Step;
    if actions == [] {
    } else {
      ZeroTtlRun(answers, env, actions[..|actions| - 1]);
      ZeroTtlStep(answers, Run(answers, 0, env, actions[..|actions| - 1]), actions[|actions| - 1]);
    }
  }

  /** With TTL 0 (and a clock that does not step back) every lookup returns what the agent
      answered within that lookup, for the binding that lookup read, however threads,
      assignments and deletions interleave. */
  lemma ZeroTtlIsUncached(answers: Answers, env: map<string, string>, actions: seq<Action>, c: nat)
    requires var st := Run(answers, 0, env, actions);
             c in st.calls && st.calls[c].phase.Returned? && st.calls[c].phase.origin.Some?
    ensures var call := Run(answers, 0, env, actions).calls[c];
            exists t :: call.start <= t <= call.phase.at && call.phase.value == answers(t, call.key, call.binding)
  {
    ZeroTtlRun(answers, env, actions);
    var st := Run(answers, 0, env, actions);
    assert OwnAnswer(answers, st.now, st.calls[c]);
    assert st.calls[c].phase.value ==
           answers(st.calls[c].phase.origin.value.askedAt, st.calls[c].key, st.calls[c].binding);
  }

  // ---------- an undisturbed call is the class's call ----------

  lemma RunSnoc(answers: Answers, ttl: nat, env: map<string, string>, actions: seq<Action>, a: Action)
    ensures Run(answers, ttl, env, actions + [a]) == Step(answers, ttl, Run(answers, ttl, env, actions), a)
  {
  }

  /** The call's first two steps. */
  lemma BeginsAndChecks(answers: Answers, ttl: nat, env: map<string, string>, before: seq<Action>, c: nat, key: string)
    requires var st := Run(answers, ttl, env, before);
             c !in st.calls && (key in st.env ==> VAULT_PREFIX <= st.env[key])
    ensures var (st, end) := (Run(answers, ttl, env, before),
                              Run(answers, ttl, env, before + [Begin(c, key)] + [Check(c)]));
            && c in end.calls && end.calls[c].key == key && end.calls[c].binding == Lookup(st.env, key)
            && end.cache == st.cache && end.now == st.now
            && end.calls[c].phase == match Cached(st.cache, key, st.now, ttl)
                                     case Some(e) => Returned(st.now, e.value, Lookup(st.origins, key))
                                     case None => Missed
  {
    RunSnoc(answers, ttl, env, before, Begin(c, key));
    RunSnoc(answers, ttl, env, before + [Begin(c, key)], Check(c));
    hide Run;
  }

  lemma LoneQuery(answers: Answers, ttl: nat, env: map<string, string>, before: seq<Action>, c: nat)
    requires c in Run(answers, ttl, env, before).calls && Run(answers, ttl, env, before).calls[c].phase.Missed?
    ensures var (st, end) := (Run(answers, ttl, env, before), Run(answers, ttl, env, before + [Ask(c)] + [Put(c)]));
            var call := st.calls[c];
            var value := answers(st.now, call.key, call.binding);
            && c in end.calls && end.calls[c].phase.Returned? && end.calls[c].phase.value == value
            && end.cache == st.cache[call.key := Entry(value, st.now)]
  {
    RunSnoc(answers, ttl, env, before, Ask(c));
    RunSnoc(answers, ttl, env, before + [Ask(c)], Put(c));
    hide Run;
  }

  lemma RealLookup(answers: Answers, ttl: nat, st: State, c: nat, key: string)
    requires c !in st.calls && key in st.env && !(VAULT_PREFIX <= st.env[key])
    ensures var end := Step(answers, ttl, st, Begin(c, key));
            && end.cache == st.cache && c in end.calls
            && end.calls[c].phase == Returned(st.now, Some(st.env[key]), None)
  {
  }

  /** A call that nothing disturbs returns what the class's `Get` returns and leaves the cache
      it leaves. */
  lemma LoneCallIsGet(answers: Answers, ttl: nat, env: map<string, string>, before: seq<Action>, c: nat, key: string)
    returns (after: seq<Action>)
    requires c !in Run(answers, ttl, env, before).calls
    ensures before <= after
    ensures var (st, end) := (Run(answers, ttl, env, before), Run(answers, ttl, env, after));
            && c in end.calls && end.calls[c].phase.Returned?
            && (end.calls[c].phase.value, end.cache) ==
               Got(st.env, st.cache, ttl, key, (k, b) => answers(st.now, k, b), st.now, st.now)
  {
    hide Run, Step, Cached;
    var st := Run(answers, ttl, env, before);
    if key in st.env && !(VAULT_PREFIX <= st.env[key]) {
      after := before + [Begin(c, key)];
      RunSnoc(answers, ttl, env, before, Begin(c, key));
      RealLookup(answers, ttl, st, c, key);
    } else {
      after := before + [Begin(c, key)] + [Check(c)];
      BeginsAndChecks(answers, ttl, env, before, c, key);
      if Cached(st.cache, key, st.now, ttl).None? {
        LoneQuery(answers, ttl, env, after, c);
        after := after + [Ask(c)] + [Put(c)];
      }
    }
  }

  // ---------- fresh entries are used, and assignments take effect ----------

  /** The key has an entry no older than `since`. */
  predicate Fresh(st: State, key: string, since: nat) {
    key in st.cache && since <= st.cache[key].timestamp <= st.now
  }

  lemma StepKeepsFresh(answers: Answers, ttl: nat, st: State, a: Action, key: string, since: nat)
    requires Fresh(st, key, since) && a != Forget(key)
    ensures Fresh(Step(answers, ttl, st, a), key, since)
  {
  }

  lemma {:induction false} StaysFresh(answers: Answers, ttl: nat, env: map<string, string>, first: seq<Action>,
                                      later: seq<Action>, key: string, since: nat)
    requires Fresh(Run(answers, ttl, env, first), key, since) && Forget(key) !in later
    ensures Fresh(Run(answers, ttl, env, first + later), key, since)
  {
    hide Step, Fresh;
    if later == [] {
      assert first + later == first;
    } else {
      var front, a := later[..|later| - 1], later[|later| - 1];
      StaysFresh(answers, ttl, env, first, front, key, since);
      RunSnoc(answers, ttl, env, first + front, a);
      assert first + later == first + front + [a];
      StepKeepsFresh(answers, ttl, Run(answers, ttl, env, first + front), a, key, since);
    }
  }

  /** Main result on use: once a call has put its answer at instant `i`, every check of the key
      before `i + ttl` returns at once, without asking the agent, unless the entry is dropped. */
  lemma FreshEntriesServe(answers: Answers, ttl: nat, env: map<string, string>, earlier: seq<Action>, c: nat,
                          later: seq<Action>, d: nat)
    requires var st := Run(answers, ttl, env, earlier); c in st.calls && st.calls[c].phase.Asked?
    requires var key := Run(answers, ttl, env, earlier).calls[c].key;
             var st2 := Run(answers, ttl, env, earlier + [Put(c)] + later);
             && Forget(key) !in later && st2.now < Run(answers, ttl, env, earlier).now + ttl
             && d in st2.calls && st2.calls[d].phase.Checking? && st2.calls[d].key == key
    ensures var st2 := Run(answers, ttl, env, earlier + [Put(c)] + later);
            var end := Step(answers, ttl, st2, Check(d));
            && end.calls[d].phase.Returned? && end.calls[d].phase.at == st2.now
            && end.cache == st2.cache && st2.calls[d].key in st2.cache
            && end.calls[d].phase.value == st2.cache[st2.calls[d].key].value
  {
    var st := Run(answers, ttl, env, earlier);
    RunSnoc(answers, ttl, env, earlier, Put(c));
    StaysFresh(answers, ttl, env, earlier + [Put(c)], later, st.calls[c].key, st.now);
  }

  /** `Assign(key, _)` or `Delete(key)`. */
  predicate Writes(a: Action, key: string) {
    (a.Assign? || a.Delete?) && a.key == key
  }

  lemma StepKeepsBinding(answers: Answers, ttl: nat, st: State, a: Action, key: string)
    requires !Writes(a, key)
    ensures Lookup(Step(answers, ttl, st, a).env, key) == Lookup(st.env, key)
  {
  }

  lemma {:induction false} Unwritten(answers: Answers, ttl: nat, env: map<string, string>, first: seq<Action>,
                                     later: seq<Action>, key: string)
    requires forall a | a in later :: !Writes(a, key)
    ensures Lookup(Run(answers, ttl, env, first + later).env, key) == Lookup(Run(answers, ttl, env, first).env, key)
  {
    hide Step, Writes;
    if later == [] {
      assert first + later == first;
    } else {
      var front, a := later[..|later| - 1], later[|later| - 1];
      assert a in later;
      Unwritten(answers, ttl, env, first, front, key);
      RunSnoc(answers, ttl, env, first + front, a);
      assert first + later == first + front + [a];
      StepKeepsBinding(answers, ttl, Run(answers, ttl, env, first + front), a, key);
    }
  }

  /** In every run the environment binds a key to what was written to it last. */
  lemma LastWriteCounts(answers: Answers, ttl: nat, env: map<string, string>, earlier: seq<Action>, w: Action,
                        later: seq<Action>, key: string)
    requires Writes(w, key) && forall a | a in later :: !Writes(a, key)
    ensures Lookup(Run(answers, ttl, env, earlier + [w] + later).env, key) ==
            match w case Assign(_, value) => Some(value) case _ => None
  {
    RunSnoc(answers, ttl, env, earlier, w);
    Unwritten(answers, ttl, env, earlier + [w], later, key);
  }

  /** A check that follows the drop of the key's entry asks the agent again. */
  lemma ForgottenIsAskedAgain(answers: Answers, ttl: nat, st: State, key: string, c: nat)
    requires c in st.calls && st.calls[c].phase.Checking? && st.calls[c].key == key
    ensures var st1 := Step(answers, ttl, st, Forget(key));
            Step(answers, ttl, st1, Check(c)).calls[c].phase.Missed?
  {
  }
}
