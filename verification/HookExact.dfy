/** Exact conditions for the two stacked caches: how old an answer can get, when one TTL bounds
    it, and when every lookup is answered for the binding it read. */
module HookExact {
  import opened Common
  import opened VaultRefs
  import PE = PyEnviron
  import VC = VaultCache
  import VM = VaultMachine
  import VT = VaultTheorems
  import opened HookMachine
  import opened HookRuns

  // ---------- a value kept as long as both caches can keep it ----------

  /** Nothing has been looked up yet, and the agent would answer `value` now. */
  ghost predicate Ready(cfg: Config, st: State, key: string, text: string, value: string, fills: nat) {
    && st.env == map[key := text] && st.cache == map[] && st.gets == map[] && st.pending == multiset{}
    && 1 !in st.agent.calls && VT.FillLatency(st.agent, fills)
    && AgentCall(cfg, st.agent, text).0 == VC.Answer(Some(value))
  }

  lemma StoredUnderText(text: string)
    requires NormalForm(text)
    ensures VC.CacheKey(VC.IdOf(VM.RefOf(text)), VM.RefOf(text).key) == text
  {
    hide ParseRef;
    assert VC.RefTo(VC.IdOf(VM.RefOf(text)), VM.RefOf(text).key) == ParseRef(text).value;
  }

  lemma RefOfText(text: string)
    requires ParseRef(text).Some?
    ensures ParseRef(text).value == VM.RefOf(text)
  {
    hide ParseRef;
  }

  /** One instant before the agent's entry expires, or at once if it keeps none. */
  lemma AgentReady(cfg: Config, key: string, text: string, value: string, fills: nat) returns (actions: seq<Action>)
    requires NormalForm(text) && VT.Holds(cfg.vault, 0, VM.RefOf(text), value)
    ensures var st := Run(cfg, Initial(map[key := text]), actions);
            Ready(cfg, st, key, text, value, fills) && st.agent.now == WorstAge(cfg.agentTtl, 0, 0, fills)
  {
    hide ParseRef, VM.Step, VM.RefOf, VC.CacheKey, VC.IdOf, Step, VC.InsertAll;
    var init := Initial(map[key := text]);
    actions := [];
    if cfg.agentTtl > 0 {
      var fetch := VT.FetchRun(cfg.vault, cfg.agentTtl, text, 0, fills);
      LiftedRun(cfg, init, fetch);
      StoredUnderText(text);
      var s1 := Run(cfg, init, Lifted(fetch));
      TickStep(cfg, s1, cfg.agentTtl - 1);
      RunSnoc(cfg, init, Lifted(fetch), Agent(VM.Tick(cfg.agentTtl - 1)));
      actions := Lifted(fetch) + [Agent(VM.Tick(cfg.agentTtl - 1))];
      assert VC.Hit(Run(cfg, init, actions).agent.cache, text, Run(cfg, init, actions).agent.now) == Some(value);
    } else {
      RefOfText(text);
    }
  }

  lemma FillsKept(a: VM.State, b: VM.State, limit: nat)
    requires a.fills == b.fills && VT.FillLatency(a, limit)
    ensures VT.FillLatency(b, limit)
  {
  }

  /** A lookup that misses, is answered at once and stores `delay` later. */
  lemma SlowLookup(cfg: Config, st: State, key: string, text: string, value: string, fills: nat, delay: nat)
    returns (actions: seq<Action>)
    requires Ready(cfg, st, key, text, value, fills) && VAULT_PREFIX <= text
    ensures var end := Run(cfg, st, actions);
            && end.env == st.env && end.pending == multiset{} && end.gets.Keys == {0}
            && end.agent.now == st.agent.now + delay && VT.FillLatency(end.agent, fills)
            && key in end.cache && Resolved(end, 0)
            && end.gets[0].phase == Returned(end.agent.now, Some(value), Some(end.cache[key]))
            && end.cache[key] == Entry(PE.Entry(Some(value), end.agent.now),
                                       Query(Some(text), st.agent.now, st.agent.now, false, Some(1)))
  {
    hide VM.Step, Step, AgentCall, VT.FillLatency;
    BeginsAndChecks(cfg, st, 0, key);
    actions := [GetBegin(0, key), Check(0)];
    var s1 := Run(cfg, st, actions);
    var more := AgentAnswers(cfg, s1, 0, 1, text);
    RunAppend(cfg, st, actions, more);
    actions := actions + more;
    var s2 := Run(cfg, st, actions);
    RunSnoc(cfg, st, actions, Agent(VM.Tick(delay)));
    TickStep(cfg, s2, delay);
    actions := actions + [Agent(VM.Tick(delay))];
    var s3 := Run(cfg, st, actions);
    FillsKept(s2.agent, s3.agent, fills);
    RunSnoc(cfg, st, actions, Store(0));
    StoreIsStep(cfg, s3, 0);
    actions := actions + [Store(0)];
  }

  /** A second lookup, one instant before the hook's entry expires. */
  lemma LateHit(cfg: Config, st: State, key: string, text: string) returns (actions: seq<Action>)
    requires cfg.hookTtl > 0 && Lookup(st.env, key) == Some(text) && VAULT_PREFIX <= text && 1 !in st.gets
    requires key in st.cache && st.cache[key].cached.timestamp == st.agent.now
    ensures var end := Run(cfg, st, actions);
            && end.agent.fills == st.agent.fills
            && end.gets == st.gets[1 := Get(key, Some(text), st.agent.now + cfg.hookTtl - 1, key in st.pending, false,
                 Returned(st.agent.now + cfg.hookTtl - 1, st.cache[key].cached.value, Some(st.cache[key])))]
  {
    hide VM.Step, Step;
    RunSnoc(cfg, st, [], Agent(VM.Tick(cfg.hookTtl - 1)));
    TickStep(cfg, st, cfg.hookTtl - 1);
    actions := [] + [Agent(VM.Tick(cfg.hookTtl - 1))];
    var s1 := Run(cfg, st, actions);
    BeginsAndChecks(cfg, s1, 1, key);
    RunAppend(cfg, st, actions, [GetBegin(1, key), Check(1)]);
    actions := actions + [GetBegin(1, key), Check(1)];
  }

  /** Main result: with the reference in printed form and Vault holding `value` at instant 0,
      some run within the two latencies returns it at the worst age, whatever Vault held since;
      unless the hook keeps nothing, to a lookup begun at that very instant. */
  lemma TtlsAddUp(cfg: Config, key: string, text: string, value: string, queries: nat, fills: nat)
    returns (actions: seq<Action>, g: nat)
    requires NormalForm(text) && VT.Holds(cfg.vault, 0, VM.RefOf(text), value)
    ensures var st := Run(cfg, Initial(map[key := text]), actions);
            && QueryLatency(st, queries) && VT.FillLatency(st.agent, fills)
            && Resolved(st, g) && st.gets[g].phase.result == Some(value)
            && st.gets[g].phase.entry.value.query.binding == Some(text)
            && st.gets[g].phase.at == WorstAge(cfg.agentTtl, cfg.hookTtl, queries, fills)
            && (cfg.hookTtl > 0 ==> st.gets[g].begunAt == st.gets[g].phase.at)
  {
    hide VM.Step, Step, ParseRef, VT.FillLatency, AgentCall;
    ReferencesHavePrefix(text);
    var init := Initial(map[key := text]);
    actions := AgentReady(cfg, key, text, value, fills);
    var s1 := Run(cfg, init, actions);
    var more := SlowLookup(cfg, s1, key, text, value, fills, queries);
    RunAppend(cfg, init, actions, more);
    actions := actions + more;
    g := 0;
    if cfg.hookTtl > 0 {
      var s2 := Run(cfg, init, actions);
      more := LateHit(cfg, s2, key, text);
      RunAppend(cfg, init, actions, more);
      actions := actions + more;
      FillsKept(s2.agent, Run(cfg, init, actions).agent, fills);
      g := 1;
    }
  }

  // ---------- the worst age is exact ----------

  /** Lookup `g` returned a value it did not read from the environment, in a run that kept to
      the two latencies. */
  ghost predicate Timely(cfg: Config, env: map<string, string>, actions: seq<Action>, g: nat, queries: nat, fills: nat)
  {
    var st := Run(cfg, Initial(env), actions);
    && QueryLatency(st, queries) && VT.FillLatency(st.agent, fills)
    && Resolved(st, g) && st.gets[g].phase.result.Some?
  }

  /** With these TTLs and latencies no answer in any run is older than `limit`. */
  ghost predicate AgesWithin(agentTtl: nat, hookTtl: nat, queries: nat, fills: nat, limit: nat) {
    forall vault: VM.Vault, env: map<string, string>, actions: seq<Action>, g: nat |
      VT.SafeNames(vault) && Timely(Config(vault, agentTtl, hookTtl), env, actions, g, queries, fills) ::
      HeldWithin(Config(vault, agentTtl, hookTtl), Run(Config(vault, agentTtl, hookTtl), Initial(env), actions),
                 g, limit)
  }

  const SAMPLE_ID := VC.SecretId("m", "p", None)

  /** Vault holds a value for one key at instant 0 only. */
  function Fleeting(): VM.Vault {
    (t: nat, id: VC.SecretId) => Some(if t == 0 then map["k" := "x"] else map[])
  }

  lemma FleetingIsSafe()
    ensures VT.SafeNames(Fleeting())
  {
    hide ParseRef, VC.CacheKey;
    forall t, id, name | VC.ValidId(id) && Fleeting()(t, id).Some? && name in Fleeting()(t, id).value
      ensures VC.SafeName(id, name)
    {
      VC.CacheKeyMeaning(id, name);
    }
  }

  lemma SampleIsValid()
    ensures VC.ValidId(SAMPLE_ID)
  {
    assert FindText(DATA, "m" + "/").None?;
  }

  lemma SampleText() returns (text: string)
    ensures NormalForm(text) && VM.RefOf(text) == VC.RefTo(SAMPLE_ID, "k")
  {
    hide ParseRef, VC.CacheKey;
    text := VC.CacheKey(SAMPLE_ID, "k");
    SampleIsValid();
    VC.CacheKeyMeaning(SAMPLE_ID, "k");
    VT.CacheKeyPrints(SAMPLE_ID, "k");
  }

  /** Main result: for each pair of TTLs and latencies the worst age bounds every answer of
      every run, and no smaller number does. */
  lemma WorstAgeExactly(agentTtl: nat, hookTtl: nat, queries: nat, fills: nat, limit: nat)
    ensures AgesWithin(agentTtl, hookTtl, queries, fills, limit)
            <==> limit >= WorstAge(agentTtl, hookTtl, queries, fills)
  {
    hide Run, VT.SafeNames, ParseRef;
    if limit >= WorstAge(agentTtl, hookTtl, queries, fills) {
      forall vault: VM.Vault, env: map<string, string>, actions: seq<Action>, g: nat |
        VT.SafeNames(vault) && Timely(Config(vault, agentTtl, hookTtl), env, actions, g, queries, fills)
        ensures HeldWithin(Config(vault, agentTtl, hookTtl),
                           Run(Config(vault, agentTtl, hookTtl), Initial(env), actions), g, limit)
      {
        ComposedStaleness(Config(vault, agentTtl, hookTtl), env, actions, g, queries, fills);
      }
    }
    if AgesWithin(agentTtl, hookTtl, queries, fills, limit) {
      var cfg := Config(Fleeting(), agentTtl, hookTtl);
      FleetingIsSafe();
      var text := SampleText();
      var actions, g := TtlsAddUp(cfg, "v", text, "x", queries, fills);
      var st := Run(cfg, Initial(map["v" := text]), actions);
      assert Timely(cfg, map["v" := text], actions, g, queries, fills);
      assert HeldWithin(cfg, st, g, limit);
    }
  }

  /** The documented promise: without any latency, an answer is at most one TTL old, the longer
      of the two. It holds exactly when one of the caches keeps nothing past its own instant. */
  lemma OneTtlPromise(agentTtl: nat, hookTtl: nat)
    ensures AgesWithin(agentTtl, hookTtl, 0, 0, Before(if agentTtl < hookTtl then hookTtl else agentTtl))
            <==> agentTtl <= 1 || hookTtl <= 1
  {
    WorstAgeExactly(agentTtl, hookTtl, 0, 0, Before(if agentTtl < hookTtl then hookTtl else agentTtl));
  }

  // ---------- a store that races an assignment ----------

  /** Lookup 0 has its answer, for reference `r1`, and has not stored it. */
  predicate AboutToStore(st: State, key: string, r1: string, value: Option<string>) {
    && st.cache == map[] && st.pending == multiset{} && st.env == map[key := r1] && st.gets.Keys == {0}
    && st.gets[0].phase.Answered? && st.gets[0].phase.value == value
    && st.gets[0].key == key && st.gets[0].binding == Some(r1) && !st.gets[0].between && !st.gets[0].overlapped
  }

  /** The key is assigned, its entry dropped, and only then does lookup 0 store: a lookup begun
      with nothing pending is answered for the binding that is gone. */
  lemma StoreAfterAssignment(cfg: Config, st: State, key: string, r1: string, r2: string, value: Option<string>)
    returns (actions: seq<Action>)
    requires cfg.hookTtl > 0 && VAULT_PREFIX <= r2 && AboutToStore(st, key, r1, value)
    ensures var end := Run(cfg, st, actions);
            && end.env == map[key := r2] && end.pending == multiset{} && end.agent == st.agent
            && end.gets.Keys == {0, 1} && !end.gets[0].between
            && end.gets[1].key == key && end.gets[1].binding == Some(r2)
            && !end.gets[1].between && !end.gets[1].overlapped
            && Resolved(end, 1) && end.gets[1].phase.result == value && end.gets[1].phase.at == st.agent.now
            && end.gets[1].phase.entry.value.query.binding == Some(r1)
  {
    hide VM.Step, Step;
    var s1 := Step(cfg, st, SetVar(key, r2));
    ChangeIsStep(cfg, st, SetVar(key, r2));
    var s2 := Step(cfg, s1, DropEntry(key));
    DropIsStep(cfg, s1, key);
    var s3 := Step(cfg, s2, Store(0));
    StoreIsStep(cfg, s2, 0);
    RunTwo(cfg, st, SetVar(key, r2), DropEntry(key));
    RunSnoc(cfg, st, [SetVar(key, r2), DropEntry(key)], Store(0));
    actions := [SetVar(key, r2), DropEntry(key)] + [Store(0)];
    BeginsAndChecks(cfg, s3, 1, key);
    RunAppend(cfg, st, actions, [GetBegin(1, key), Check(1)]);
    actions := actions + [GetBegin(1, key), Check(1)];
  }

  /** The entry is stored, and the key assigned but its entry not yet dropped, when the next
      lookup begins. */
  lemma LookupBetweenStatements(cfg: Config, st: State, key: string, r1: string, r2: string, value: Option<string>)
    returns (actions: seq<Action>)
    requires cfg.hookTtl > 0 && VAULT_PREFIX <= r2 && AboutToStore(st, key, r1, value)
    ensures var end := Run(cfg, st, actions);
            && end.gets.Keys == {0, 1} && !end.gets[0].overlapped && !end.gets[1].overlapped
            && end.gets[1].key == key && end.gets[1].binding == Some(r2)
            && Resolved(end, 1) && end.gets[1].phase.entry.value.query.binding == Some(r1)
  {
    hide VM.Step, Step;
    var s1 := Step(cfg, st, Store(0));
    StoreIsStep(cfg, st, 0);
    var s2 := Step(cfg, s1, SetVar(key, r2));
    ChangeIsStep(cfg, s1, SetVar(key, r2));
    RunTwo(cfg, st, Store(0), SetVar(key, r2));
    actions := [Store(0), SetVar(key, r2)];
    BeginsAndChecks(cfg, s2, 1, key);
    RunAppend(cfg, st, actions, [GetBegin(1, key), Check(1)]);
    actions := actions + [GetBegin(1, key), Check(1)];
  }

  /** Main result: with any caching in the hook, for any two references and any value Vault
      holds for the first, a run ends with a lookup that began after the key was assigned the
      second, with no assignment unfinished, and returns the first one's value. */
  lemma RacingLookup(cfg: Config, key: string, r1: string, r2: string, value: string) returns (actions: seq<Action>)
    requires cfg.hookTtl > 0 && ParseRef(r1).Some? && VAULT_PREFIX <= r2
    requires VT.Holds(cfg.vault, 0, VM.RefOf(r1), value)
    ensures var st := Run(cfg, Initial(map[key := r1]), actions);
            && st.env == map[key := r2] && st.pending == multiset{}
            && Resolved(st, 1) && st.gets[1].key == key && st.gets[1].binding == Some(r2)
            && !st.gets[1].between && !st.gets[1].overlapped
            && st.gets[1].phase.result == Some(value)
            && st.gets[1].phase.entry.value.query.binding == Some(r1)
  {
    hide VM.Step, Step, ParseRef;
    var init := Initial(map[key := r1]);
    ReferencesHavePrefix(r1);
    BeginsAndChecks(cfg, init, 0, key);
    actions := [GetBegin(0, key), Check(0)];
    var s1 := Run(cfg, init, actions);
    var more := AgentAnswers(cfg, s1, 0, 0, r1);
    assert AgentCall(cfg, s1.agent, r1).0 == VC.Answer(Some(value)) by {
      RefOfText(r1);
    }
    RunAppend(cfg, init, actions, more);
    actions := actions + more;
    var s2 := Run(cfg, init, actions);
    more := StoreAfterAssignment(cfg, s2, key, r1, r2, Some(value));
    RunAppend(cfg, init, actions, more);
    actions := actions + more;
  }

  // ---------- when every lookup is answered for the binding it read ----------

  /** No assignment overlaps a lookup of its key, and no lookup begins between the two
      statements of one; either can be allowed. */
  ghost predicate Undisturbed(st: State, overlap: bool, between: bool) {
    forall g | g in st.gets :: (overlap || !st.gets[g].overlapped) && (between || !st.gets[g].between)
  }

  predicate OwnBinding(st: State, g: nat) {
    Resolved(st, g) ==> st.gets[g].phase.entry.value.query.binding == st.gets[g].binding
  }

  ghost predicate OwnBindings(cfg: Config, st: State) {
    && (cfg.hookTtl == 0 || Undisturbed(st, false, false) ==> forall g | g in st.gets :: OwnBinding(st, g))
    && (Undisturbed(st, false, false) ==> forall key | key in st.cache :: !st.cache[key].query.overlapped)
  }

  lemma EarlierUndisturbed(cfg: Config, st: State, a: Action)
    requires Undisturbed(Step(cfg, st, a), false, false)
    ensures Undisturbed(st, false, false)
  {
    hide Step;
    forall g | g in st.gets { MarksStay(cfg, st, a, g); }
  }

  /** A hit is for the binding the lookup read. */
  lemma CheckKeepsOwnBinding(cfg: Config, st: State, g: nat)
    requires g in st.gets && st.gets[g].phase.Checking?
    requires cfg.hookTtl == 0 || (Undisturbed(st, false, false) && Clean(st)
             && forall key | key in st.cache :: !st.cache[key].query.overlapped)
    requires forall key | key in st.cache :: st.cache[key].cached.timestamp <= st.agent.now
    ensures OwnBinding(CheckStep(cfg, st, g), g)
  {
    if st.gets[g].key in st.cache && cfg.hookTtl > 0 {
      assert CleanGet(st, g) && CleanEntry(st, st.gets[g].key);
    }
    hide Clean;
  }

  lemma OtherStepKeepsOwnBinding(cfg: Config, st: State, a: Action, g: nat)
    requires g in Step(cfg, st, a).gets && (g in st.gets ==> OwnBinding(st, g))
    requires a == Check(g) && g in st.gets ==> !st.gets[g].phase.Checking?
    ensures OwnBinding(Step(cfg, st, a), g)
  {
    hide VM.Step;
  }

  lemma StepKeepsOwnBinding(cfg: Config, st: State, a: Action, g: nat)
    requires g in Step(cfg, st, a).gets && (g in st.gets ==> OwnBinding(st, g))
    requires cfg.hookTtl == 0 || (Undisturbed(st, false, false) && Clean(st)
             && forall key | key in st.cache :: !st.cache[key].query.overlapped)
    requires forall key | key in st.cache :: st.cache[key].cached.timestamp <= st.agent.now
    ensures OwnBinding(Step(cfg, st, a), g)
  {
    hide Step, Clean, Undisturbed, OwnBinding, CheckStep;
    if a == Check(g) && g in st.gets && st.gets[g].phase.Checking? {
      CheckIsStep(cfg, st, g);
      CheckKeepsOwnBinding(cfg, st, g);
    } else {
      OtherStepKeepsOwnBinding(cfg, st, a, g);
    }
  }

  lemma StoredMark(st: State, g: nat)
    requires g in st.gets && st.gets[g].phase.Answered?
    ensures EntryOf(st.gets[g], st.agent.now).query.overlapped == st.gets[g].overlapped
  {
  }

  lemma StepKeepsOwnBindings(cfg: Config, st: State, a: Action)
    requires Clean(st) && OwnBindings(cfg, st)
    requires forall key | key in st.cache :: st.cache[key].cached.timestamp <= st.agent.now
    ensures OwnBindings(cfg, Step(cfg, st, a))
  {
    hide Step, Clean, OwnBinding, EntryOf;
    var st' := Step(cfg, st, a);
    if Undisturbed(st', false, false) {
      EarlierUndisturbed(cfg, st, a);
      forall key | key in st'.cache ensures !st'.cache[key].query.overlapped {
        HookStepEntry(cfg, st, a, key);
        if a.Store? && a.g in st.gets && st.gets[a.g].phase.Answered? {
          StoredMark(st, a.g);
        }
      }
    }
    if cfg.hookTtl == 0 || Undisturbed(st', false, false) {
      forall g | g in st'.gets ensures OwnBinding(st', g) {
        StepKeepsOwnBinding(cfg, st, a, g);
      }
    }
  }

  lemma EntriesNotAhead(cfg: Config, env: map<string, string>, actions: seq<Action>)
    ensures var st := Run(cfg, Initial(env), actions);
            forall key | key in st.cache :: st.cache[key].cached.timestamp <= st.agent.now
  {
    hide VM.Inv, Run, Evidence;
    RunPreservesInv(cfg, env, actions);
  }

  lemma NothingLookedUp(cfg: Config, env: map<string, string>)
    ensures OwnBindings(cfg, Initial(env))
  {
  }

  lemma {:induction false} RunOwnBindings(cfg: Config, env: map<string, string>, actions: seq<Action>)
    ensures OwnBindings(cfg, Run(cfg, Initial(env), actions))
  {
    hide Step, Clean, OwnBindings;
    if actions == [] {
      NothingLookedUp(cfg, env);
    } else {
      var before := actions[..|actions| - 1];
      RunOwnBindings(cfg, env, before);
      RunClean(cfg, env, before);
      EntriesNotAhead(cfg, env, before);
      StepKeepsOwnBindings(cfg, Run(cfg, Initial(env), before), actions[|actions| - 1]);
    }
  }

  /** In every run that is undisturbed as far as required, every lookup is answered for the
      binding it read when it began. */
  ghost predicate ServesOwnBindings(cfg: Config, overlap: bool, between: bool) {
    forall env: map<string, string>, actions: seq<Action>, g: nat |
      Undisturbed(Run(cfg, Initial(env), actions), overlap, between) ::
      OwnBinding(Run(cfg, Initial(env), actions), g)
  }

  /** A lookup that the agent leaves unanswered, up to its store. */
  lemma UnansweredLookup(cfg: Config, key: string, text: string) returns (actions: seq<Action>)
    requires VAULT_PREFIX <= text
    ensures AboutToStore(Run(cfg, Initial(map[key := text]), actions), key, text, None)
  {
    hide VM.Step, Step;
    var init := Initial(map[key := text]);
    BeginsAndChecks(cfg, init, 0, key);
    var s1 := Run(cfg, init, [GetBegin(0, key), Check(0)]);
    RunSnoc(cfg, init, [GetBegin(0, key), Check(0)], Drop(0));
    DropStep(cfg, s1, 0);
    actions := [GetBegin(0, key), Check(0)] + [Drop(0)];
  }

  lemma Disturbed(cfg: Config, overlap: bool, between: bool)
    requires cfg.hookTtl > 0 && (overlap || between)
    ensures !ServesOwnBindings(cfg, overlap, between)
  {
    hide VM.Step, Step, Run;
    var r1, r2 := VAULT_PREFIX + "1", VAULT_PREFIX + "2";
    assert r1[|VAULT_PREFIX|] != r2[|VAULT_PREFIX|];
    var init := Initial(map["k" := r1]);
    var actions := UnansweredLookup(cfg, "k", r1);
    var st := Run(cfg, init, actions);
    var more: seq<Action>;
    if overlap {
      more := StoreAfterAssignment(cfg, st, "k", r1, r2, None);
    } else {
      more := LookupBetweenStatements(cfg, st, "k", r1, r2, None);
    }
    RunAppend(cfg, init, actions, more);
    var end := Run(cfg, init, actions + more);
    assert Undisturbed(end, overlap, between);
    assert !OwnBinding(end, 1);
  }

  lemma UnknownLookup(st: State, g: nat)
    ensures g !in st.gets ==> OwnBinding(st, g)
  {
  }

  /** Main result on races: every lookup of every run is answered for the binding it read
      exactly when the hook caches nothing, or no lookup overlaps an assignment of its key nor
      begins between the two statements of one. */
  lemma OwnBindingsExactly(cfg: Config, overlap: bool, between: bool)
    ensures ServesOwnBindings(cfg, overlap, between) <==> cfg.hookTtl == 0 || !(overlap || between)
  {
    hide Run, OwnBinding;
    if cfg.hookTtl == 0 || !(overlap || between) {
      forall env: map<string, string>, actions: seq<Action>, g: nat |
        Undisturbed(Run(cfg, Initial(env), actions), overlap, between)
        ensures OwnBinding(Run(cfg, Initial(env), actions), g)
      {
        RunOwnBindings(cfg, env, actions);
        UnknownLookup(Run(cfg, Initial(env), actions), g);
      }
    } else {
      Disturbed(cfg, overlap, between);
    }
  }
}
