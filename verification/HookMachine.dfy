/** Two caches in a row: concurrent lookups through the Python hook's TTL cache, each asking
    an agent whose Vault cache serves any number of other calls as well, under one clock.
    Assignments and deletions of environment variables interleave with lookups. */
module HookMachine {
  import opened Common
  import opened VaultRefs
  import PE = PyEnviron
  import VC = VaultCache
  import VM = VaultMachine
  import VT = VaultTheorems

  /** History of the query behind an entry: the binding it carried, when its lookup and when
      the query itself began, whether its lookup overlapped an assignment, and the agent call
      that answered it. */
  datatype Query = Query(binding: Option<string>, begunAt: nat, askedAt: nat, overlapped: bool, call: Option<nat>)

  datatype Entry = Entry(cached: PE.Entry, query: Query)

  datatype Phase =
    | Checking
    | Querying(askedAt: nat)
    | Asked(askedAt: nat, c: nat)
    | Answered(askedAt: nat, call: Option<nat>, value: Option<string>)
    | Returned(at: nat, result: Option<string>, entry: Option<Entry>)  // no entry: the real value

  /** `binding` is what the lookup read when it began. History: `begunAt`, that instant;
      `between`, the key's environment had changed then and its entry was not yet dropped;
      `overlapped`, the key was assigned or deleted while the lookup ran. */
  datatype Get = Get(
    key: string,
    binding: Option<string>,
    begunAt: nat,
    between: bool,
    overlapped: bool,
    phase: Phase)

  /** `pending` counts assignments and deletions that have changed the environment and not yet
      dropped the cache entry: two statements, which other threads can come between. */
  datatype State = State(
    agent: VM.State,
    env: map<string, string>,
    cache: map<string, Entry>,
    gets: map<nat, Get>,
    pending: multiset<string>)

  datatype Action =
    | Agent(a: VM.Action)
    | GetBegin(g: nat, key: string)
    | Check(g: nat)
    | Ask(g: nat, c: nat)
    | Answer(g: nat)
    | Drop(g: nat)      // no agent, no reference, timeout, oversize
    | Store(g: nat)
    | SetVar(key: string, value: string)
    | DelVar(key: string)
    | DropEntry(key: string)

  datatype Config = Config(vault: VM.Vault, agentTtl: nat, hookTtl: nat)

  function Initial(env: map<string, string>): State {
    State(VM.INITIAL, env, map[], map[], multiset{})
  }

  function Put(st: State, g: nat, phase: Phase): State
    requires g in st.gets
  {
    st.(gets := st.gets[g := st.gets[g].(phase := phase)])
  }

  function AnsweredValue(call: VM.Call): Option<string> {
    match call.phase
    case Served(_, v, _) => Some(v)
    case Filled(_, outcome, _) => outcome
    case _ => None
  }

  predicate Finished(call: VM.Call) {
    call.phase.Served? || call.phase.Filled? || call.phase.Failed?
  }

  function BeginStep(st: State, g: nat, key: string): State {
    var binding := Lookup(st.env, key);
    var isReal := binding.Some? && !(VAULT_PREFIX <= binding.value);
    var phase := if isReal then Returned(st.agent.now, binding, None) else Checking;
    st.(gets := st.gets[g := Get(key, binding, st.agent.now, key in st.pending, false, phase)])
  }

  function CheckStep(cfg: Config, st: State, g: nat): State
    requires g in st.gets
  {
    var key := st.gets[g].key;
    if key in st.cache && PE.Live(st.cache[key].cached, st.agent.now, cfg.hookTtl)
    then Put(st, g, Returned(st.agent.now, st.cache[key].cached.value, Some(st.cache[key])))
    else Put(st, g, Querying(st.agent.now))
  }

  /** The entry that lookup `get` stores at `now`. */
  function EntryOf(get: Get, now: nat): Entry
    requires get.phase.Answered?
  {
    Entry(PE.Entry(get.phase.value, now),
          Query(get.binding, get.begunAt, get.phase.askedAt, get.overlapped, get.phase.call))
  }

  function StoreStep(st: State, g: nat): State
    requires g in st.gets && st.gets[g].phase.Answered?
  {
    var entry := EntryOf(st.gets[g], st.agent.now);
    Put(st, g, Returned(st.agent.now, entry.cached.value, Some(entry)))
    .(cache := st.cache[st.gets[g].key := entry])
  }

  /** The environment has changed at `key`; lookups of it that are still running overlap. */
  function ChangeStep(st: State, env: map<string, string>, key: string): State {
    st.(env := env, pending := st.pending + multiset{key},
        gets := map g | g in st.gets ::
          if st.gets[g].key == key && !st.gets[g].phase.Returned? then st.gets[g].(overlapped := true)
          else st.gets[g])
  }

  function Step(cfg: Config, st: State, a: Action): State {
    match a
    case Agent(b) => st.(agent := VM.Step(cfg.vault, cfg.agentTtl, st.agent, b))
    case GetBegin(g, key) => if g in st.gets then st else BeginStep(st, g, key)
    case Check(g) =>
      if g in st.gets && st.gets[g].phase.Checking? then CheckStep(cfg, st, g) else st
    case Ask(g, c) =>
      if g in st.gets && st.gets[g].phase.Querying? && st.gets[g].binding.Some? && c !in st.agent.calls then
        Put(st, g, Asked(st.gets[g].phase.askedAt, c))
        .(agent := VM.Step(cfg.vault, cfg.agentTtl, st.agent, VM.Begin(c, st.gets[g].binding.value)))
      else st
    case Answer(g) =>
      if g in st.gets && st.gets[g].phase.Asked? && st.gets[g].phase.c in st.agent.calls
         && Finished(st.agent.calls[st.gets[g].phase.c]) then
        Put(st, g, Answered(st.gets[g].phase.askedAt, Some(st.gets[g].phase.c),
                            AnsweredValue(st.agent.calls[st.gets[g].phase.c])))
      else st
    case Drop(g) =>
      if g in st.gets && (st.gets[g].phase.Querying? || st.gets[g].phase.Asked?) then
        Put(st, g, Answered(st.gets[g].phase.askedAt, None, None))
      else st
    case Store(g) =>
      if g in st.gets && st.gets[g].phase.Answered? then StoreStep(st, g) else st
    case SetVar(key, value) => ChangeStep(st, st.env[key := value], key)
    case DelVar(key) => if key in st.env then ChangeStep(st, st.env - {key}, key) else st
    case DropEntry(key) =>
      if key in st.pending
      then st.(cache := st.cache - {key}, pending := st.pending - multiset{key}) else st
  }

  function Run(cfg: Config, st: State, actions: seq<Action>): State {
    if actions == [] then st
    else Step(cfg, Run(cfg, st, actions[..|actions| - 1]), actions[|actions| - 1])
  }

  // ---------- answers come from agent calls within their query ----------

  function AnswerTime(call: VM.Call): nat {
    match call.phase
    case Served(at, _, _) => at
    case Filled(at, _, _) => at
    case Failed(at, _) => at
    case _ => 0
  }

  /** A value came from an agent call for `binding` that ran between `askedAt` and `latest`. */
  ghost predicate Evidence(agent: VM.State, binding: Option<string>, askedAt: nat, c: Option<nat>,
                           value: Option<string>, latest: nat)
  {
    value.Some? ==>
      && c.Some? && c.value in agent.calls
      && var call := agent.calls[c.value];
         && binding == Some(call.text) && Finished(call)
         && askedAt <= call.start && AnswerTime(call) <= latest
         && AnsweredValue(call) == value
  }

  ghost predicate GoodEntry(agent: VM.State, e: Entry) {
    && e.query.begunAt <= e.query.askedAt <= e.cached.timestamp <= agent.now
    && Evidence(agent, e.query.binding, e.query.askedAt, e.query.call, e.cached.value, e.cached.timestamp)
  }

  /** Used when it was stored, or while it was live. */
  ghost predicate UsedInTime(ttl: nat, e: Entry, at: nat) {
    e.cached.timestamp <= at && (at == e.cached.timestamp || PE.Live(e.cached, at, ttl))
  }

  ghost predicate GoodGet(cfg: Config, agent: VM.State, get: Get) {
    && get.begunAt <= agent.now
    && match get.phase
       case Checking => true
       case Querying(t) => get.begunAt <= t <= agent.now
       case Asked(t, c) =>
         && get.begunAt <= t <= agent.now && c in agent.calls && get.binding == Some(agent.calls[c].text)
         && t <= agent.calls[c].start
       case Answered(t, c, v) =>
         get.begunAt <= t <= agent.now && Evidence(agent, get.binding, t, c, v, agent.now)
       case Returned(at, v, e) =>
         && get.begunAt <= at <= agent.now
         && (e.Some? ==> GoodEntry(agent, e.value) && v == e.value.cached.value && UsedInTime(cfg.hookTtl, e.value, at))
  }

  ghost predicate Inv(cfg: Config, st: State) {
    && VM.Inv(cfg.vault, cfg.agentTtl, st.agent)
    && (forall key | key in st.cache :: GoodEntry(st.agent, st.cache[key]))
    && (forall g | g in st.gets :: GoodGet(cfg, st.agent, st.gets[g]))
  }

  /** Agent steps never rewrite a call's text, start or final answer. */
  lemma AgentStepKeepsCalls(cfg: Config, agent: VM.State, b: VM.Action, c: nat)
    requires c in agent.calls
    ensures var agent' := VM.Step(cfg.vault, cfg.agentTtl, agent, b);
            && agent'.now >= agent.now && c in agent'.calls
            && agent'.calls[c].text == agent.calls[c].text && agent'.calls[c].start == agent.calls[c].start
            && (Finished(agent.calls[c]) ==> agent'.calls[c] == agent.calls[c])
  {
  }

  lemma ClockNeverBack(cfg: Config, agent: VM.State, b: VM.Action)
    ensures VM.Step(cfg.vault, cfg.agentTtl, agent, b).now >= agent.now
  {
  }

  /** `later` has all calls of `earlier`, with the same answers. */
  ghost predicate Extends(later: VM.State, earlier: VM.State) {
    && later.now >= earlier.now
    && forall c | c in earlier.calls ::
         && c in later.calls
         && later.calls[c].text == earlier.calls[c].text && later.calls[c].start == earlier.calls[c].start
         && (Finished(earlier.calls[c]) ==> later.calls[c] == earlier.calls[c])
  }

  lemma AgentStepExtends(cfg: Config, agent: VM.State, b: VM.Action)
    ensures Extends(VM.Step(cfg.vault, cfg.agentTtl, agent, b), agent)
  {
    hide VM.Step;
    ClockNeverBack(cfg, agent, b);
    forall c | c in agent.calls {
      AgentStepKeepsCalls(cfg, agent, b, c);
    }
  }

  lemma AgentPreservesInv(cfg: Config, st: State, agent': VM.State)
    requires Inv(cfg, st) && Extends(agent', st.agent) && VM.Inv(cfg.vault, cfg.agentTtl, agent')
    ensures Inv(cfg, st.(agent := agent'))
  {
    hide VM.Inv;
    var st' := st.(agent := agent');
    forall key | key in st'.cache ensures GoodEntry(agent', st'.cache[key]) {
      assert GoodEntry(st.agent, st.cache[key]);
    }
    forall g | g in st'.gets ensures GoodGet(cfg, agent', st'.gets[g]) {
      assert GoodGet(cfg, st.agent, st.gets[g]);
    }
  }

  /** Steps of the hook itself leave the agent alone, except that a query begins a call. */
  lemma HookStepAgent(cfg: Config, st: State, a: Action)
    requires !a.Agent? && !a.Ask?
    ensures Step(cfg, st, a).agent == st.agent
  {
  }

  predicate StepsOf(a: Action, g: nat) {
    match a
    case Check(h) => h == g
    case Ask(h, _) => h == g
    case Answer(h) => h == g
    case Drop(h) => h == g
    case Store(h) => h == g
    case _ => false
  }

  /** A lookup is changed by its own steps only, but for the mark that an assignment leaves. */
  lemma HookStepGet(cfg: Config, st: State, a: Action, g: nat)
    requires g in Step(cfg, st, a).gets && !a.Agent?
    ensures g !in st.gets ==> a.GetBegin? && a.g == g && Step(cfg, st, a) == BeginStep(st, g, a.key)
    ensures g in st.gets && !StepsOf(a, g) ==>
              Step(cfg, st, a).gets[g] in {st.gets[g], st.gets[g].(overlapped := true)}
  {
  }

  lemma FinishedInTime(cfg: Config, agent: VM.State, c: nat)
    requires VM.Inv(cfg.vault, cfg.agentTtl, agent) && c in agent.calls && Finished(agent.calls[c])
    ensures agent.calls[c].start <= AnswerTime(agent.calls[c]) <= agent.now
    ensures AnsweredValue(agent.calls[c]).Some? ==>
              VT.Answers(agent.calls[c], AnswerTime(agent.calls[c]), AnsweredValue(agent.calls[c]).value)
  {
    hide VC.CacheKey, ParseRef, VM.RefOf, VC.IdOf, VC.ValidId;
    assert VM.GoodCall(cfg.vault, cfg.agentTtl, agent.fills, agent.now, agent.calls[c]);
  }

  lemma CheckIsStep(cfg: Config, st: State, g: nat)
    requires g in st.gets && st.gets[g].phase.Checking?
    ensures Step(cfg, st, Check(g)) == CheckStep(cfg, st, g)
  {
    hide VM.Step, CheckStep;
  }

  lemma StoreIsStep(cfg: Config, st: State, g: nat)
    requires g in st.gets && st.gets[g].phase.Answered?
    ensures Step(cfg, st, Store(g)) == StoreStep(st, g)
  {
    hide VM.Step, StoreStep;
  }

  lemma CheckKeepsGetGood(cfg: Config, st: State, g: nat)
    requires Inv(cfg, st) && g in st.gets && st.gets[g].phase.Checking?
    ensures g in CheckStep(cfg, st, g).gets && GoodGet(cfg, st.agent, CheckStep(cfg, st, g).gets[g])
  {
    hide VM.Inv, Evidence;
    assert GoodGet(cfg, st.agent, st.gets[g]);
  }

  lemma AnswerKeepsGetGood(cfg: Config, st: State, g: nat)
    requires Inv(cfg, st) && g in st.gets && st.gets[g].phase.Asked?
    ensures g in Step(cfg, st, Answer(g)).gets && GoodGet(cfg, st.agent, Step(cfg, st, Answer(g)).gets[g])
  {
    hide VM.Inv, VM.Step, GoodEntry;
    assert GoodGet(cfg, st.agent, st.gets[g]);
    if Finished(st.agent.calls[st.gets[g].phase.c]) {
      FinishedInTime(cfg, st.agent, st.gets[g].phase.c);
    }
  }

  lemma StoreKeepsGetGood(cfg: Config, st: State, g: nat)
    requires Inv(cfg, st) && g in st.gets && st.gets[g].phase.Answered?
    ensures g in StoreStep(st, g).gets && GoodGet(cfg, st.agent, StoreStep(st, g).gets[g])
  {
    hide VM.Inv, Evidence;
    assert GoodGet(cfg, st.agent, st.gets[g]);
  }

  /** Apart from these three, a lookup's own step only records what it knows. */
  lemma QuietStepKeepsGetGood(cfg: Config, st: State, a: Action, g: nat)
    requires g in st.gets && GoodGet(cfg, st.agent, st.gets[g]) && StepsOf(a, g) && !a.Ask?
    requires a.Check? ==> !st.gets[g].phase.Checking?
    requires a.Answer? ==> !st.gets[g].phase.Asked?
    requires a.Store? ==> !st.gets[g].phase.Answered?
    ensures g in Step(cfg, st, a).gets
    ensures GoodGet(cfg, st.agent, Step(cfg, st, a).gets[g])
  {
    hide VM.Step, GoodEntry, CheckStep, StoreStep;
  }

  lemma OwnStepKeepsGetGood(cfg: Config, st: State, a: Action, g: nat)
    requires Inv(cfg, st) && !a.Ask? && StepsOf(a, g) && g in st.gets
    ensures g in Step(cfg, st, a).gets
    ensures GoodGet(cfg, st.agent, Step(cfg, st, a).gets[g])
  {
    hide VM.Step, VM.Inv, GoodGet, CheckStep, StoreStep, Step;
    if a.Check? && st.gets[g].phase.Checking? {
      CheckIsStep(cfg, st, g);
      CheckKeepsGetGood(cfg, st, g);
    } else if a.Answer? && st.gets[g].phase.Asked? {
      AnswerKeepsGetGood(cfg, st, g);
    } else if a.Store? && st.gets[g].phase.Answered? {
      StoreIsStep(cfg, st, g);
      StoreKeepsGetGood(cfg, st, g);
    } else {
      QuietStepKeepsGetGood(cfg, st, a, g);
    }
  }

  lemma HookStepKeepsGetGood(cfg: Config, st: State, a: Action, g: nat)
    requires Inv(cfg, st) && !a.Agent? && !a.Ask? && g in Step(cfg, st, a).gets
    ensures GoodGet(cfg, st.agent, Step(cfg, st, a).gets[g])
  {
    hide VM.Inv, VM.Step, Evidence, Step;
    HookStepGet(cfg, st, a, g);
    if g in st.gets && !StepsOf(a, g) {
      assert GoodGet(cfg, st.agent, st.gets[g]);
    } else if g in st.gets {
      OwnStepKeepsGetGood(cfg, st, a, g);
    }
  }

  /** An entry is the one from before, or what a lookup of its key stores now. */
  lemma HookStepEntry(cfg: Config, st: State, a: Action, key: string)
    requires key in Step(cfg, st, a).cache
    ensures (key in st.cache && Step(cfg, st, a).cache[key] == st.cache[key])
            || (a.Store? && a.g in st.gets && st.gets[a.g].phase.Answered? && st.gets[a.g].key == key
                && Step(cfg, st, a).cache[key] == EntryOf(st.gets[a.g], st.agent.now))
  {
    hide VM.Step, EntryOf;
  }

  lemma HookStepKeepsEntryGood(cfg: Config, st: State, a: Action, key: string)
    requires Inv(cfg, st) && !a.Agent? && !a.Ask? && key in Step(cfg, st, a).cache
    ensures GoodEntry(st.agent, Step(cfg, st, a).cache[key])
  {
    hide VM.Inv, Step, Evidence;
    HookStepEntry(cfg, st, a, key);
    if a.Store? && a.g in st.gets {
      assert GoodGet(cfg, st.agent, st.gets[a.g]);
    }
  }

  lemma AskPreservesInv(cfg: Config, st: State, g: nat, c: nat)
    requires Inv(cfg, st)
    ensures Inv(cfg, Step(cfg, st, Ask(g, c)))
  {
    hide VM.Inv, ParseRef, GoodEntry;
    if g in st.gets && st.gets[g].phase.Querying? && st.gets[g].binding.Some? && c !in st.agent.calls {
      var text := st.gets[g].binding.value;
      var agent' := VM.Step(cfg.vault, cfg.agentTtl, st.agent, VM.Begin(c, text));
      VM.StepPreservesInv(cfg.vault, cfg.agentTtl, st.agent, VM.Begin(c, text));
      AgentStepExtends(cfg, st.agent, VM.Begin(c, text));
      AgentPreservesInv(cfg, st, agent');
      assert GoodGet(cfg, st.agent, st.gets[g]);
    }
  }

  lemma StepPreservesInv(cfg: Config, st: State, a: Action)
    requires Inv(cfg, st)
    ensures Inv(cfg, Step(cfg, st, a))
  {
    hide VM.Inv, VM.Step, GoodEntry, GoodGet;
    var st' := Step(cfg, st, a);
    if a.Agent? {
      VM.StepPreservesInv(cfg.vault, cfg.agentTtl, st.agent, a.a);
      AgentStepExtends(cfg, st.agent, a.a);
      AgentPreservesInv(cfg, st, st'.agent);
    } else if a.Ask? {
      AskPreservesInv(cfg, st, a.g, a.c);
    } else {
      HookStepAgent(cfg, st, a);
      forall g | g in st'.gets { HookStepKeepsGetGood(cfg, st, a, g); }
      forall key | key in st'.cache { HookStepKeepsEntryGood(cfg, st, a, key); }
    }
  }

  lemma {:induction false} RunPreservesInv(cfg: Config, env: map<string, string>, actions: seq<Action>)
    ensures Inv(cfg, Run(cfg, Initial(env), actions))
  {
    hide Step;
    if actions == [] {
    } else {
      RunPreservesInv(cfg, env, actions[..|actions| - 1]);
      StepPreservesInv(cfg, Run(cfg, Initial(env), actions[..|actions| - 1]), actions[|actions| - 1]);
    }
  }

  // ---------- how old an answer can be ----------

  predicate Resolved(st: State, g: nat) {
    g in st.gets && st.gets[g].phase.Returned? && st.gets[g].phase.entry.Some?
  }

  /** Every query reached its timestamp within `limit`. */
  ghost predicate QueryLatency(st: State, limit: nat) {
    forall g | Resolved(st, g) ::
      st.gets[g].phase.entry.value.cached.timestamp <= st.gets[g].phase.entry.value.query.askedAt + limit
  }

  /** The last instant of `ttl` instants. */
  function Before(ttl: nat): nat {
    if ttl == 0 then 0 else ttl - 1
  }

  /** How old a value can be when queries take up to `queries` and fills up to `fills`. */
  function WorstAge(agentTtl: nat, hookTtl: nat, queries: nat, fills: nat): nat {
    Before(hookTtl) + queries + if agentTtl == 0 then 0 else agentTtl - 1 + fills
  }

  /** The value returned to lookup `g` was Vault's, for the reference its query carried, at an
      instant at most `limit` before. */
  ghost predicate HeldWithin(cfg: Config, st: State, g: nat, limit: nat) {
    && Resolved(st, g)
    && var phase := st.gets[g].phase;
    && phase.entry.value.query.binding.Some? && phase.result.Some?
    && exists t: nat :: t <= phase.at <= t + limit
                   && VT.Holds(cfg.vault, t, VM.RefOf(phase.entry.value.query.binding.value), phase.result.value)
  }

  /** Main result on ages: a value returned for a reference was Vault's value for it within
      both TTLs and both latencies, whatever else the caches serve meanwhile. */
  lemma ComposedStaleness(cfg: Config, env: map<string, string>, actions: seq<Action>, g: nat, queries: nat, fills: nat)
    requires VT.SafeNames(cfg.vault)
    requires var st := Run(cfg, Initial(env), actions);
             && QueryLatency(st, queries) && VT.FillLatency(st.agent, fills)
             && Resolved(st, g) && st.gets[g].phase.result.Some?
    ensures HeldWithin(cfg, Run(cfg, Initial(env), actions), g, WorstAge(cfg.agentTtl, cfg.hookTtl, queries, fills))
  {
    hide VM.Inv, VM.Step, VT.SafeNames, ParseRef, VM.RefOf, VT.Holds;
    RunPreservesInv(cfg, env, actions);
    var st := Run(cfg, Initial(env), actions);
    assert GoodGet(cfg, st.agent, st.gets[g]);
    var e := st.gets[g].phase.entry.value;
    var c := e.query.call.value;
    FinishedInTime(cfg, st.agent, c);
    var t := VT.AnswerAgeInState(cfg.vault, cfg.agentTtl, st.agent, c, AnswerTime(st.agent.calls[c]),
                                 e.cached.value.value, fills);
    assert VT.Holds(cfg.vault, t, VM.RefOf(e.query.binding.value), st.gets[g].phase.result.value);
  }

  // ---------- which binding an answer is for ----------

  /** A lookup that no assignment overlapped read the binding the key still has. */
  predicate CleanGet(st: State, g: nat)
    requires g in st.gets
  {
    var get := st.gets[g];
    !get.phase.Returned? && !get.overlapped ==>
      && get.binding == Lookup(st.env, get.key)
      && (!get.between ==> get.key !in st.pending)
  }

  /** An entry that no assignment overlapped, or is about to drop, is for the present binding. */
  predicate CleanEntry(st: State, key: string)
    requires key in st.cache
  {
    !st.cache[key].query.overlapped && key !in st.pending ==>
      st.cache[key].query.binding == Lookup(st.env, key)
  }

  ghost predicate Clean(st: State) {
    && (forall g | g in st.gets :: CleanGet(st, g))
    && (forall key | key in st.cache :: CleanEntry(st, key))
  }

  /** A change of one key marks that key's lookups and leaves the others' bindings alone. */
  lemma ChangeKeepsGetClean(st: State, env: map<string, string>, key: string, g: nat)
    requires g in st.gets && CleanGet(st, g)
    requires st.gets[g].key != key ==> Lookup(env, st.gets[g].key) == Lookup(st.env, st.gets[g].key)
    ensures g in ChangeStep(st, env, key).gets && CleanGet(ChangeStep(st, env, key), g)
  {
  }

  /** What a lookup is about never changes, marks stay, and a returned lookup is final. */
  lemma MarksStay(cfg: Config, st: State, a: Action, g: nat)
    requires g in st.gets
    ensures var st' := Step(cfg, st, a);
            && g in st'.gets && st'.gets[g].key == st.gets[g].key && st'.gets[g].binding == st.gets[g].binding
            && (st.gets[g].overlapped ==> st'.gets[g].overlapped)
            && st'.gets[g].between == st.gets[g].between && st'.gets[g].begunAt == st.gets[g].begunAt
            && (st.gets[g].phase.Returned? ==> st'.gets[g] == st.gets[g])
  {
    hide VM.Step;
  }

  lemma OthersKeepTheEnvironment(cfg: Config, st: State, a: Action)
    requires !a.SetVar? && !a.DelVar?
    ensures var st' := Step(cfg, st, a);
            && st'.env == st.env
            && (st'.pending == st.pending || (a.DropEntry? && st'.pending == st.pending - multiset{a.key}))
  {
    hide VM.Step;
  }

  lemma BegunIsClean(cfg: Config, st: State, a: Action, g: nat)
    requires g in Step(cfg, st, a).gets && g !in st.gets
    ensures CleanGet(Step(cfg, st, a), g)
  {
    hide VM.Step;
  }

  lemma OtherStepKeepsGetClean(cfg: Config, st: State, a: Action, g: nat)
    requires g in Step(cfg, st, a).gets && (g in st.gets ==> CleanGet(st, g)) && !a.SetVar? && !a.DelVar?
    ensures CleanGet(Step(cfg, st, a), g)
  {
    hide Step;
    OthersKeepTheEnvironment(cfg, st, a);
    if g in st.gets {
      MarksStay(cfg, st, a, g);
    } else {
      BegunIsClean(cfg, st, a, g);
    }
  }

  lemma ChangeIsStep(cfg: Config, st: State, a: Action)
    ensures a.SetVar? ==> Step(cfg, st, a) == ChangeStep(st, st.env[a.key := a.value], a.key)
    ensures a.DelVar? ==> Step(cfg, st, a) == if a.key in st.env then ChangeStep(st, st.env - {a.key}, a.key) else st
  {
    hide VM.Step, ChangeStep;
  }

  lemma DropIsStep(cfg: Config, st: State, key: string)
    requires key in st.pending
    ensures Step(cfg, st, DropEntry(key)) == st.(cache := st.cache - {key}, pending := st.pending - multiset{key})
  {
    hide VM.Step;
  }

  lemma StepKeepsGetClean(cfg: Config, st: State, a: Action, g: nat)
    requires g in Step(cfg, st, a).gets && (g in st.gets ==> CleanGet(st, g))
    ensures CleanGet(Step(cfg, st, a), g)
  {
    hide Step, CleanGet;
    if a.SetVar? || a.DelVar? {
      ChangeIsStep(cfg, st, a);
      if g in st.gets && (a.DelVar? ==> a.key in st.env) {
        ChangeKeepsGetClean(st, if a.SetVar? then st.env[a.key := a.value] else st.env - {a.key}, a.key, g);
      }
    } else {
      OtherStepKeepsGetClean(cfg, st, a, g);
    }
  }

  lemma StepKeepsEntryClean(cfg: Config, st: State, a: Action, key: string)
    requires key in Step(cfg, st, a).cache && (key in st.cache ==> CleanEntry(st, key))
    requires a.Store? && a.g in st.gets ==> CleanGet(st, a.g)
    ensures CleanEntry(Step(cfg, st, a), key)
  {
    hide VM.Step;
  }

  lemma {:induction false} RunClean(cfg: Config, env: map<string, string>, actions: seq<Action>)
    ensures Clean(Run(cfg, Initial(env), actions))
  {
    hide Step, CleanGet, CleanEntry;
    if actions == [] {
    } else {
      RunClean(cfg, env, actions[..|actions| - 1]);
      var st, a := Run(cfg, Initial(env), actions[..|actions| - 1]), actions[|actions| - 1];
      forall g | g in Step(cfg, st, a).gets { StepKeepsGetClean(cfg, st, a, g); }
      forall key | key in Step(cfg, st, a).cache { StepKeepsEntryClean(cfg, st, a, key); }
    }
  }

  /** A lookup of a reference returns by its check or by its store. */
  lemma ReturningSteps(cfg: Config, st: State, a: Action, g: nat)
    requires g in st.gets && !st.gets[g].phase.Returned? && Resolved(Step(cfg, st, a), g)
    ensures (a == Check(g) && st.gets[g].phase.Checking?) || (a == Store(g) && st.gets[g].phase.Answered?)
  {
    hide VM.Step;
  }

  lemma CheckHits(cfg: Config, st: State, g: nat)
    requires Clean(st) && g in st.gets && st.gets[g].key !in st.pending && Resolved(CheckStep(cfg, st, g), g)
    requires !CheckStep(cfg, st, g).gets[g].phase.entry.value.query.overlapped
    ensures var st' := CheckStep(cfg, st, g);
            st'.gets[g].phase.entry.value.query.binding == Lookup(st'.env, st'.gets[g].key)
  {
    hide CleanGet;
    assert st.gets[g].key in st.cache ==> CleanEntry(st, st.gets[g].key);
  }

  lemma StoreReturns(st: State, g: nat)
    requires g in st.gets && st.gets[g].phase.Answered?
    ensures var st' := StoreStep(st, g);
            && st'.env == st.env && Resolved(st', g) && st'.gets[g].key == st.gets[g].key
            && st'.gets[g].phase.entry.value.query.binding == st.gets[g].binding
            && st'.gets[g].phase.entry.value.query.begunAt == st.gets[g].begunAt
            && st'.gets[g].phase.entry.value.query.overlapped == st.gets[g].overlapped
  {
  }

  /** Unless the lookup that asked for it overlapped an assignment of the key, or the entry is
      about to be dropped, what a lookup returns is for the binding the key has at that step. */
  lemma ReturnedForCurrentBinding(cfg: Config, env: map<string, string>, actions: seq<Action>, a: Action, g: nat)
    requires var (st, st') := (Run(cfg, Initial(env), actions), Step(cfg, Run(cfg, Initial(env), actions), a));
             && g in st.gets && !st.gets[g].phase.Returned?
             && Resolved(st', g) && !st'.gets[g].phase.entry.value.query.overlapped
             && (a.Check? ==> st.gets[g].key !in st.pending)
    ensures var st' := Step(cfg, Run(cfg, Initial(env), actions), a);
            st'.gets[g].phase.entry.value.query.binding == Lookup(st'.env, st'.gets[g].key)
  {
    hide Step, Run, CheckStep, StoreStep;
    RunClean(cfg, env, actions);
    var st := Run(cfg, Initial(env), actions);
    ReturningSteps(cfg, st, a, g);
    if a.Check? {
      CheckIsStep(cfg, st, g);
      CheckHits(cfg, st, g);
    } else {
      StoreIsStep(cfg, st, g);
      assert CleanGet(st, g);
      StoreReturns(st, g);
    }
  }

  // ---------- how old a binding can be ----------

  /** What the key was bound to after the first `n` actions. */
  function BindingAfter(cfg: Config, env: map<string, string>, actions: seq<Action>, n: nat,
                        key: string): Option<string>
    requires n <= |actions|
  {
    Lookup(Run(cfg, Initial(env), actions[..n]).env, key)
  }

  /** At instant `at` of the run the key was bound to `binding`. */
  ghost predicate BoundAt(cfg: Config, env: map<string, string>, actions: seq<Action>, key: string,
                          binding: Option<string>, at: nat)
  {
    exists n: nat | n <= |actions| ::
      BindingAfter(cfg, env, actions, n, key) == binding && Run(cfg, Initial(env), actions[..n]).agent.now == at
  }

  ghost predicate TracedGet(cfg: Config, env: map<string, string>, actions: seq<Action>, st: State, g: nat)
    requires g in st.gets
  {
    && BoundAt(cfg, env, actions, st.gets[g].key, st.gets[g].binding, st.gets[g].begunAt)
    && (Resolved(st, g) ==>
          var query := st.gets[g].phase.entry.value.query;
          BoundAt(cfg, env, actions, st.gets[g].key, query.binding, query.begunAt))
  }

  ghost predicate TracedEntry(cfg: Config, env: map<string, string>, actions: seq<Action>, st: State, key: string)
    requires key in st.cache
  {
    BoundAt(cfg, env, actions, key, st.cache[key].query.binding, st.cache[key].query.begunAt)
  }

  ghost predicate Traced(cfg: Config, env: map<string, string>, actions: seq<Action>, st: State) {
    && (forall g | g in st.gets :: TracedGet(cfg, env, actions, st, g))
    && (forall key | key in st.cache :: TracedEntry(cfg, env, actions, st, key))
  }

  lemma StillBoundAt(cfg: Config, env: map<string, string>, actions: seq<Action>, a: Action, st: State)
    requires Traced(cfg, env, actions, st)
    ensures Traced(cfg, env, actions + [a], st)
  {
    forall key, binding, at | BoundAt(cfg, env, actions, key, binding, at)
      ensures BoundAt(cfg, env, actions + [a], key, binding, at)
    {
      var n: nat :| n <= |actions| && BindingAfter(cfg, env, actions, n, key) == binding
                    && Run(cfg, Initial(env), actions[..n]).agent.now == at;
      assert (actions + [a])[..n] == actions[..n];
      assert BindingAfter(cfg, env, actions + [a], n, key) == binding;
    }
  }

  lemma BoundNow(cfg: Config, env: map<string, string>, actions: seq<Action>, key: string)
    ensures var st := Run(cfg, Initial(env), actions);
            BoundAt(cfg, env, actions, key, Lookup(st.env, key), st.agent.now)
  {
    assert actions[..|actions|] == actions;
    assert BindingAfter(cfg, env, actions, |actions|, key) == Lookup(Run(cfg, Initial(env), actions).env, key);
  }

  lemma BeginKeepsBindings(cfg: Config, st: State, g: nat, key: string)
    ensures var st' := Step(cfg, st, GetBegin(g, key)); st'.env == st.env && st'.agent.now == st.agent.now
  {
  }

  lemma StepTracesEntry(cfg: Config, env: map<string, string>, actions: seq<Action>, st: State, a: Action, key: string)
    requires Traced(cfg, env, actions, st) && key in Step(cfg, st, a).cache
    ensures TracedEntry(cfg, env, actions, Step(cfg, st, a), key)
  {
    hide BoundAt, Step;
    HookStepEntry(cfg, st, a, key);
    if key in st.cache && Step(cfg, st, a).cache[key] == st.cache[key] {
      assert TracedEntry(cfg, env, actions, st, key);
    } else {
      assert TracedGet(cfg, env, actions, st, a.g);
    }
  }

  lemma StepTracesGet(cfg: Config, env: map<string, string>, actions: seq<Action>, st: State, a: Action, g: nat)
    requires Traced(cfg, env, actions, st) && g in st.gets
    ensures g in Step(cfg, st, a).gets && TracedGet(cfg, env, actions, Step(cfg, st, a), g)
  {
    hide BoundAt, Step, StoreStep;
    MarksStay(cfg, st, a, g);
    assert TracedGet(cfg, env, actions, st, g);
    if Resolved(Step(cfg, st, a), g) && !st.gets[g].phase.Returned? {
      ReturningSteps(cfg, st, a, g);
      if a.Check? {
        CheckIsStep(cfg, st, g);
        assert st.gets[g].key in st.cache ==> TracedEntry(cfg, env, actions, st, st.gets[g].key);
      } else {
        StoreIsStep(cfg, st, g);
        StoreReturns(st, g);
      }
    }
  }

  lemma BegunIsTraced(cfg: Config, env: map<string, string>, actions: seq<Action>, st: State, a: Action, g: nat)
    requires g in Step(cfg, st, a).gets && g !in st.gets
    requires a.GetBegin? ==> BoundAt(cfg, env, actions, a.key, Lookup(st.env, a.key), st.agent.now)
    ensures TracedGet(cfg, env, actions, Step(cfg, st, a), g)
  {
    hide BoundAt, VM.Step;
  }

  lemma StepTraced(cfg: Config, env: map<string, string>, actions: seq<Action>, st: State, a: Action)
    requires Traced(cfg, env, actions, st)
    requires a.GetBegin? ==> BoundAt(cfg, env, actions, a.key, Lookup(st.env, a.key), st.agent.now)
    ensures Traced(cfg, env, actions, Step(cfg, st, a))
  {
    hide BoundAt, Step, TracedGet, TracedEntry;
    forall g | g in Step(cfg, st, a).gets ensures TracedGet(cfg, env, actions, Step(cfg, st, a), g) {
      if g in st.gets {
        StepTracesGet(cfg, env, actions, st, a, g);
      } else {
        BegunIsTraced(cfg, env, actions, st, a, g);
      }
    }
    forall key | key in Step(cfg, st, a).cache ensures TracedEntry(cfg, env, actions, Step(cfg, st, a), key) {
      StepTracesEntry(cfg, env, actions, st, a, key);
    }
  }

  lemma {:induction false} RunTraced(cfg: Config, env: map<string, string>, actions: seq<Action>)
    ensures Traced(cfg, env, actions, Run(cfg, Initial(env), actions))
  {
    hide Step;
    if actions == [] {
    } else {
      var before, a := actions[..|actions| - 1], actions[|actions| - 1];
      var st := Run(cfg, Initial(env), before);
      RunTraced(cfg, env, before);
      StillBoundAt(cfg, env, before, a, st);
      assert before + [a] == actions;
      if a.GetBegin? {
        BeginKeepsBindings(cfg, st, a.g, a.key);
        BoundNow(cfg, env, actions, a.key);
      }
      StepTraced(cfg, env, actions, st, a);
    }
  }

  /** Every lookup behind an entry reached its timestamp within `limit`. */
  ghost predicate LookupLatency(st: State, limit: nat) {
    forall g | Resolved(st, g) ::
      st.gets[g].phase.entry.value.cached.timestamp <= st.gets[g].phase.entry.value.query.begunAt + limit
  }

  /** Main result on bindings, with no condition on races: the binding behind every answer was
      the key's binding at an instant less than the hook's TTL plus a lookup's latency before. */
  lemma BindingAge(cfg: Config, env: map<string, string>, actions: seq<Action>, g: nat, latency: nat)
    returns (n: nat)
    requires Resolved(Run(cfg, Initial(env), actions), g) && LookupLatency(Run(cfg, Initial(env), actions), latency)
    ensures n <= |actions|
    ensures var (phase, bound) :=
              (Run(cfg, Initial(env), actions).gets[g].phase, Run(cfg, Initial(env), actions[..n]).agent.now);
            && BindingAfter(cfg, env, actions, n, Run(cfg, Initial(env), actions).gets[g].key) ==
               phase.entry.value.query.binding
            && bound <= phase.at <= bound + latency + Before(cfg.hookTtl)
  {
    hide VM.Inv, Step, Run, Evidence;
    RunPreservesInv(cfg, env, actions);
    RunTraced(cfg, env, actions);
    var st := Run(cfg, Initial(env), actions);
    assert GoodGet(cfg, st.agent, st.gets[g]);
    var query := st.gets[g].phase.entry.value.query;
    assert TracedGet(cfg, env, actions, st, g);
    n :| n <= |actions| && BindingAfter(cfg, env, actions, n, st.gets[g].key) == query.binding
         && Run(cfg, Initial(env), actions[..n]).agent.now == query.begunAt;
  }
}
