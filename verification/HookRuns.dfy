/** Runs of the two stacked caches: an undisturbed lookup, a value kept as long as both caches
    can keep it, and a store that races an assignment. */
module HookRuns {
  import opened Common
  import opened VaultRefs
  import PE = PyEnviron
  import VC = VaultCache
  import VM = VaultMachine
  import VT = VaultTheorems
  import opened HookMachine

  // ---------- composing runs ----------

  lemma RunSnoc(cfg: Config, st: State, actions: seq<Action>, a: Action)
    ensures Run(cfg, st, actions + [a]) == Step(cfg, Run(cfg, st, actions), a)
  {
  }

  lemma {:induction false} RunAppend(cfg: Config, st: State, first: seq<Action>, second: seq<Action>)
    ensures Run(cfg, st, first + second) == Run(cfg, Run(cfg, st, first), second)
  {
    hide Step;
    if second == [] {
      assert first + second == first;
    } else {
      var front, a := second[..|second| - 1], second[|second| - 1];
      RunAppend(cfg, st, first, front);
      assert first + second == (first + front) + [a];
      RunSnoc(cfg, st, first + front, a);
    }
  }

  lemma RunTwo(cfg: Config, st: State, a: Action, b: Action)
    ensures Run(cfg, st, [a, b]) == Step(cfg, Step(cfg, st, a), b)
  {
    hide Step;
    RunSnoc(cfg, st, [], a);
    RunSnoc(cfg, st, [] + [a], b);
    assert [a, b] == [] + [a] + [b];
  }

  function Lifted(agent: seq<VM.Action>): seq<Action> {
    seq(|agent|, i requires 0 <= i < |agent| => Agent(agent[i]))
  }

  /** Agent activity alone changes only the agent. */
  lemma {:induction false} LiftedRun(cfg: Config, st: State, agent: seq<VM.Action>)
    ensures Run(cfg, st, Lifted(agent)) ==
            st.(agent := VM.Run(cfg.vault, cfg.agentTtl, st.agent, agent))
  {
    hide VM.Step;
    if agent == [] {
    } else {
      var front, b := agent[..|agent| - 1], agent[|agent| - 1];
      LiftedRun(cfg, st, front);
      assert Lifted(agent) == Lifted(front) + [Agent(b)];
      RunSnoc(cfg, st, Lifted(front), Agent(b));
    }
  }

  lemma TickStep(cfg: Config, st: State, d: nat)
    ensures Step(cfg, st, Agent(VM.Tick(d))) == st.(agent := st.agent.(now := st.agent.now + d))
  {
  }

  lemma ReferencesHavePrefix(text: string)
    requires ParseRef(text).Some?
    ensures VAULT_PREFIX <= text
  {
  }

  // ---------- the parts of a lookup ----------

  lemma BeginsAndChecks(cfg: Config, st: State, g: nat, key: string)
    requires g !in st.gets && (key in st.env ==> VAULT_PREFIX <= st.env[key])
    ensures var live := key in st.cache && PE.Live(st.cache[key].cached, st.agent.now, cfg.hookTtl);
            var phase := if live then Returned(st.agent.now, st.cache[key].cached.value, Some(st.cache[key]))
                         else Querying(st.agent.now);
            Run(cfg, st, [GetBegin(g, key), Check(g)]) ==
            st.(gets := st.gets[g := Get(key, Lookup(st.env, key), st.agent.now, key in st.pending, false, phase)])
  {
    hide VM.Step;
    RunTwo(cfg, st, GetBegin(g, key), Check(g));
    var begun := Get(key, Lookup(st.env, key), st.agent.now, key in st.pending, false, Checking);
    var s1 := Step(cfg, st, GetBegin(g, key));
    assert s1 == st.(gets := st.gets[g := begun]);
    var s2 := Step(cfg, s1, Check(g));
    assert forall phase :: s1.gets[g := begun.(phase := phase)] == st.gets[g := begun.(phase := phase)];
  }

  function LoneValue(o: VC.Outcome): Option<string> {
    match o case Answer(v) => v case _ => None
  }

  /** What an undisturbed agent call for the binding answers, and the agent cache it leaves. */
  function AgentCall(cfg: Config, agent: VM.State, text: string): (VC.Outcome, map<string, VC.CacheEntry>) {
    VC.Resolved(agent.cache, cfg.agentTtl, text, agent.now, cfg.vault(agent.now, VC.IdOf(VM.RefOf(text))), agent.now)
  }

  lemma AskStep(cfg: Config, st: State, g: nat, c: nat, text: string)
    requires g in st.gets && st.gets[g].phase.Querying? && st.gets[g].binding == Some(text)
    requires c !in st.agent.calls
    ensures Step(cfg, st, Ask(g, c)) ==
            Put(st, g, Asked(st.gets[g].phase.askedAt, c))
            .(agent := VM.Step(cfg.vault, cfg.agentTtl, st.agent, VM.Begin(c, text)))
  {
    hide VM.Step;
  }

  lemma AnswerStep(cfg: Config, st: State, g: nat)
    requires g in st.gets && st.gets[g].phase.Asked? && st.gets[g].phase.c in st.agent.calls
    requires VT.OutcomeOf(st.agent.calls[st.gets[g].phase.c]).Some?
    ensures var phase := st.gets[g].phase;
            Step(cfg, st, Answer(g)) == Put(st, g, Answered(phase.askedAt, Some(phase.c),
              LoneValue(VT.OutcomeOf(st.agent.calls[phase.c]).value)))
  {
    hide VM.Step;
  }

  /** The agent's part: a call begun and run to its end, with nothing in between. */
  lemma AgentCallRun(cfg: Config, agent: VM.State, c: nat, text: string) returns (rest: seq<VM.Action>)
    requires c !in agent.calls
    ensures var begun := VM.Step(cfg.vault, cfg.agentTtl, agent, VM.Begin(c, text));
            var end := VM.Run(cfg.vault, cfg.agentTtl, begun, rest);
            && end.now == agent.now && c in end.calls && VT.OutcomeOf(end.calls[c]).Some?
            && (VT.OutcomeOf(end.calls[c]).value, end.cache) == AgentCall(cfg, agent, text)
            && (forall limit | VT.FillLatency(agent, limit) :: VT.FillLatency(end, limit))
  {
    hide VM.Step, ParseRef, VM.RefOf, VC.IdOf, VC.Hit, VC.InsertAll;
    VT.BeginNow(cfg.vault, cfg.agentTtl, agent, c, text);
    rest := [];
    if ParseRef(text).Some? {
      hide VC.Resolved;
      rest := VT.ParsedCallEnds(cfg.vault, cfg.agentTtl, VM.Step(cfg.vault, cfg.agentTtl, agent, VM.Begin(c, text)), c);
    }
  }

  /** Lookup `g`'s query, answered at once by agent call `c`, which nothing disturbs. */
  lemma AgentAnswers(cfg: Config, st: State, g: nat, c: nat, text: string) returns (actions: seq<Action>)
    requires g in st.gets && st.gets[g].phase.Querying? && st.gets[g].binding == Some(text)
    requires c !in st.agent.calls
    ensures var end := Run(cfg, st, actions);
            && end.env == st.env && end.cache == st.cache && end.pending == st.pending
            && end.gets == st.gets[g := st.gets[g].(phase :=
                 Answered(st.gets[g].phase.askedAt, Some(c), LoneValue(AgentCall(cfg, st.agent, text).0)))]
            && end.agent.now == st.agent.now && end.agent.cache == AgentCall(cfg, st.agent, text).1
            && (forall limit | VT.FillLatency(st.agent, limit) :: VT.FillLatency(end.agent, limit))
  {
    hide VM.Step, AgentCall, VT.FillLatency, Step;
    AskStep(cfg, st, g, c, text);
    var rest := AgentCallRun(cfg, st.agent, c, text);
    var s1 := Step(cfg, st, Ask(g, c));
    LiftedRun(cfg, s1, rest);
    var s2 := Run(cfg, s1, Lifted(rest));
    AnswerStep(cfg, s2, g);
    actions := [Ask(g, c)] + Lifted(rest) + [Answer(g)];
    RunSnoc(cfg, st, [], Ask(g, c));
    assert [] + [Ask(g, c)] == [Ask(g, c)];
    RunAppend(cfg, st, [Ask(g, c)], Lifted(rest));
    RunSnoc(cfg, st, [Ask(g, c)] + Lifted(rest), Answer(g));
  }

  // ---------- an undisturbed lookup is the class's lookup ----------

  function Proxy(st: State): PE.Proxy {
    PE.Proxy(st.env, map k | k in st.cache :: st.cache[k].cached, map k | k in st.cache :: st.cache[k].query.binding)
  }

  /** The agent of an undisturbed lookup: it answers references only. */
  function LoneAgent(cfg: Config, agent: VM.State): PE.Agent {
    (key: string, binding: Option<string>) =>
      match binding
      case None => None
      case Some(text) => LoneValue(AgentCall(cfg, agent, text).0)
  }

  lemma RealLookup(cfg: Config, st: State, g: nat, key: string)
    requires g !in st.gets && key in st.env && !(VAULT_PREFIX <= st.env[key])
    ensures var st' := Step(cfg, st, GetBegin(g, key));
            && g in st'.gets && st'.gets[g].phase == Returned(st.agent.now, Some(st.env[key]), None)
            && Proxy(st') == Proxy(st)
  {
    hide VM.Step;
  }

  lemma DropStep(cfg: Config, st: State, g: nat)
    requires g in st.gets && st.gets[g].phase.Querying?
    ensures Step(cfg, st, Drop(g)) == Put(st, g, Answered(st.gets[g].phase.askedAt, None, None))
  {
    hide VM.Step;
  }

  lemma StoredProxy(st: State, g: nat)
    requires g in st.gets && st.gets[g].phase.Answered?
    ensures var (end, get) := (StoreStep(st, g), st.gets[g]);
            && g in end.gets && end.gets[g].phase.Returned? && end.gets[g].phase.result == get.phase.value
            && Proxy(end) == PE.Stored(Proxy(st), get.key, get.binding, get.phase.value, st.agent.now)
  {
  }

  lemma SameProxy(st: State, st': State)
    requires st'.env == st.env && st'.cache == st.cache
    ensures Proxy(st') == Proxy(st)
  {
  }

  lemma LoneQuery(cfg: Config, st: State, g: nat, c: nat) returns (actions: seq<Action>)
    requires g in st.gets && st.gets[g].phase.Querying? && c !in st.agent.calls
    ensures var (end, get) := (Run(cfg, st, actions), st.gets[g]);
            var value := LoneAgent(cfg, st.agent)(get.key, get.binding);
            && g in end.gets && end.gets[g].phase.Returned? && end.gets[g].phase.result == value
            && Proxy(end) == PE.Stored(Proxy(st), get.key, get.binding, value, st.agent.now)
  {
    hide AgentCall, VM.Step, Step, StoreStep, Proxy, PE.Stored;
    match st.gets[g].binding {
      case Some(text) =>
        actions := AgentAnswers(cfg, st, g, c, text);
      case None =>
        actions := [] + [Drop(g)];
        RunSnoc(cfg, st, [], Drop(g));
        DropStep(cfg, st, g);
    }
    var s1 := Run(cfg, st, actions);
    SameProxy(st, s1);
    RunSnoc(cfg, st, actions, Store(g));
    StoreIsStep(cfg, s1, g);
    StoredProxy(s1, g);
    actions := actions + [Store(g)];
  }

  /** A lookup that nothing disturbs returns what the class's `GetItem` returns and leaves the
      entries it leaves. */
  lemma LoneLookup(cfg: Config, st: State, g: nat, c: nat, key: string) returns (actions: seq<Action>)
    requires g !in st.gets && c !in st.agent.calls
    ensures var (end, now) := (Run(cfg, st, actions), st.agent.now);
            && g in end.gets && end.gets[g].phase.Returned?
            && (PE.ItemOf(end.gets[g].phase.result), Proxy(end)) ==
               PE.Got(Proxy(st), cfg.hookTtl, key, LoneAgent(cfg, st.agent), now, now)
  {
    hide AgentCall, Step, VM.Step, StoreStep;
    var binding := Lookup(st.env, key);
    if binding.Some? && !(VAULT_PREFIX <= binding.value) {
      RealLookup(cfg, st, g, key);
      RunSnoc(cfg, st, [], GetBegin(g, key));
      actions := [] + [GetBegin(g, key)];
    } else {
      BeginsAndChecks(cfg, st, g, key);
      actions := [GetBegin(g, key), Check(g)];
      var s1 := Run(cfg, st, actions);
      if s1.gets[g].phase.Querying? {
        var more := LoneQuery(cfg, s1, g, c);
        RunAppend(cfg, st, actions, more);
        actions := actions + more;
      }
    }
  }

  /** The two statements of an assignment, with nothing in between, are the class's `SetItem`. */
  lemma LoneAssignment(cfg: Config, st: State, key: string, value: string)
    ensures var end := Run(cfg, st, [SetVar(key, value), DropEntry(key)]);
            Proxy(end) == PE.Assigned(Proxy(st), key, value) && end.pending == st.pending && end.agent == st.agent
  {
    hide Step;
    RunTwo(cfg, st, SetVar(key, value), DropEntry(key));
    ChangeIsStep(cfg, st, SetVar(key, value));
    DropIsStep(cfg, ChangeStep(st, st.env[key := value], key), key);
    assert st.pending + multiset{key} - multiset{key} == st.pending;
  }

  /** And those of a deletion of a bound key are its `DelItem`. */
  lemma LoneDeletion(cfg: Config, st: State, key: string)
    requires key in st.env
    ensures var end := Run(cfg, st, [DelVar(key), DropEntry(key)]);
            Proxy(end) == PE.Deleted(Proxy(st), key) && end.pending == st.pending && end.agent == st.agent
  {
    hide Step;
    RunTwo(cfg, st, DelVar(key), DropEntry(key));
    ChangeIsStep(cfg, st, DelVar(key));
    DropIsStep(cfg, ChangeStep(st, st.env - {key}, key), key);
    assert st.pending + multiset{key} - multiset{key} == st.pending;
  }
}
