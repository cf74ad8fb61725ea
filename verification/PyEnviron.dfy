/** The Python hook's environment proxy: a TTL cache in front of the agent, used one call at a
    time. Each cache entry remembers (as history) which binding its query carried. */
module PyEnviron {
  import opened Common

  datatype Entry = Entry(value: Option<string>, timestamp: nat)

  datatype Item = Item(value: string) | KeyError

  /** `carried` (history) has the binding sent with the query that produced each entry. */
  datatype Proxy = Proxy(original: map<string, string>, cache: map<string, Entry>, carried: map<string, Option<string>>)

  /** The agent during one call: a function of the key and of the binding sent along. */
  type Agent = (string, Option<string>) -> Option<string>

  predicate Live(e: Entry, now: nat, ttl: nat) {
    now - e.timestamp < ttl
  }

  predicate NeedsAgent(p: Proxy, key: string) {
    key in p.original ==> VAULT_PREFIX <= p.original[key]
  }

  function ItemOf(value: Option<string>): Item {
    match value case Some(v) => Item(v) case None => KeyError
  }

  function Stored(p: Proxy, key: string, binding: Option<string>, value: Option<string>, now: nat): Proxy {
    p.(cache := p.cache[key := Entry(value, now)], carried := p.carried[key := binding])
  }

  /** A lookup whose cache check happens at `checkAt` and whose answer is stored at `storeAt`. */
  function Got(p: Proxy, ttl: nat, key: string, agent: Agent, checkAt: nat, storeAt: nat): (Item, Proxy) {
    if !NeedsAgent(p, key) then (Item(p.original[key]), p)
    else if key in p.cache && Live(p.cache[key], checkAt, ttl) then (ItemOf(p.cache[key].value), p)
    else
      var value := agent(key, Lookup(p.original, key));
      (ItemOf(value), Stored(p, key, Lookup(p.original, key), value, storeAt))
  }

  function Forget(p: Proxy, key: string): Proxy {
    p.(cache := p.cache - {key}, carried := p.carried - {key})
  }

  function Assigned(p: Proxy, key: string, value: string): Proxy {
    Forget(p.(original := p.original[key := value]), key)
  }

  /** Deleting an absent key raises before the cache is touched. */
  function Deleted(p: Proxy, key: string): Proxy {
    if key in p.original then Forget(p.(original := p.original - {key}), key) else p
  }

  /** Every cached answer is for the binding the key has now, which is none or a reference. */
  ghost predicate Coherent(p: Proxy) {
    && p.carried.Keys == p.cache.Keys
    && forall k | k in p.cache :: p.carried[k] == Lookup(p.original, k) && NeedsAgent(p, k)
  }

  class EnvProxyEnviron {
    var original: map<string, string>
    var cache: map<string, Entry>
    const cacheTtl: nat
    ghost var carried: map<string, Option<string>>

    ghost function Model(): Proxy
      reads this
    {
      Proxy(original, cache, carried)
    }

    constructor (original: map<string, string>, cacheTtl: nat)
      ensures Model() == Proxy(original, map[], map[]) && this.cacheTtl == cacheTtl
    {
      this.original := original;
      this.cache := map[];
      this.cacheTtl := cacheTtl;
      this.carried := map[];
    }

    method GetItem(key: string, agent: Agent, checkAt: nat, storeAt: nat) returns (r: Item)
      modifies this
      ensures (r, Model()) == Got(old(Model()), cacheTtl, key, agent, checkAt, storeAt)
      ensures original == old(original)
      ensures key in original && !("vault:" <= original[key]) ==> r == Item(original[key]) && cache == old(cache)
      ensures (key in original ==> "vault:" <= original[key])
              && key in old(cache) && checkAt - old(cache)[key].timestamp < cacheTtl
              ==> && cache == old(cache)
                  && r == match old(cache)[key].value case Some(v) => Item(v) case None => KeyError
      ensures (key in original ==> "vault:" <= original[key])
              && !(key in old(cache) && checkAt - old(cache)[key].timestamp < cacheTtl)
              ==> var value := agent(key, if key in original then Some(original[key]) else None);
                  && cache == old(cache)[key := Entry(value, storeAt)]
                  && r == match value case Some(v) => Item(v) case None => KeyError
    {
      var binding: Option<string> := None;
      if key in original {
        if !(VAULT_PREFIX <= original[key]) {
          return Item(original[key]);
        }
        binding := Some(original[key]);
      }
      if key in cache && Live(cache[key], checkAt, cacheTtl) {
        if cache[key].value.None? {
          return KeyError;
        }
        return Item(cache[key].value.value);
      }
      var value := agent(key, binding);
      cache := cache[key := Entry(value, storeAt)];
      carried := carried[key := binding];
      if value.Some? {
        return Item(value.value);
      }
      return KeyError;
    }

    method SetItem(key: string, value: string)
      modifies this
      ensures Model() == Assigned(old(Model()), key, value)
      ensures original == old(original)[key := value] && cache == old(cache) - {key}
    {
      original := original[key := value];
      cache := cache - {key};
      carried := carried - {key};
    }

    method DelItem(key: string) returns (r: bool)
      modifies this
      ensures r <==> key in old(original)
      ensures Model() == Deleted(old(Model()), key)
      ensures original == old(original) - {key}
      ensures cache == if r then old(cache) - {key} else old(cache)
    {
      if key !in original {
        return false;
      }
      original := original - {key};
      cache := cache - {key};
      carried := carried - {key};
      return true;
    }

    method Contains(key: string, agent: Agent, checkAt: nat, storeAt: nat) returns (r: bool)
      modifies this
      ensures Model() == if key in old(original) then old(Model())
                         else Got(old(Model()), cacheTtl, key, agent, checkAt, storeAt).1
      ensures r <==> key in old(original)
                     || Got(old(Model()), cacheTtl, key, agent, checkAt, storeAt).0.Item?
    {
      if key in original {
        return true;
      }
      var item := GetItem(key, agent, checkAt, storeAt);
      return item.Item?;
    }
  }

  // ---------- coherence over every sequence of calls ----------

  datatype Op =
    | Get(key: string, agent: Agent, checkAt: nat, storeAt: nat)
    | Set(key: string, value: string)
    | Del(key: string)
    | Has(key: string, agent: Agent, checkAt: nat, storeAt: nat)

  function Apply(p: Proxy, ttl: nat, op: Op): Proxy {
    match op
    case Get(k, agent, c, s) => Got(p, ttl, k, agent, c, s).1
    case Set(k, v) => Assigned(p, k, v)
    case Del(k) => Deleted(p, k)
    case Has(k, agent, c, s) => if k in p.original then p else Got(p, ttl, k, agent, c, s).1
  }

  function ApplyAll(p: Proxy, ttl: nat, ops: seq<Op>): Proxy {
    if ops == [] then p else Apply(ApplyAll(p, ttl, ops[..|ops| - 1]), ttl, ops[|ops| - 1])
  }

  lemma ApplyKeepsCoherent(p: Proxy, ttl: nat, op: Op)
    requires Coherent(p)
    ensures Coherent(Apply(p, ttl, op))
  {
  }

  lemma NothingCached(original: map<string, string>)
    ensures Coherent(Proxy(original, map[], map[]))
  {
  }

  /** Main result: after any sequence of calls made one at a time, every cached answer was
      obtained by a query carrying the binding the key has now. */
  lemma {:induction false} AlwaysCoherent(original: map<string, string>, ttl: nat, ops: seq<Op>)
    ensures Coherent(ApplyAll(Proxy(original, map[], map[]), ttl, ops))
  {
    hide Apply, Coherent;
    if ops == [] {
      NothingCached(original);
    } else {
      AlwaysCoherent(original, ttl, ops[..|ops| - 1]);
      ApplyKeepsCoherent(ApplyAll(Proxy(original, map[], map[]), ttl, ops[..|ops| - 1]), ttl, ops[|ops| - 1]);
    }
  }

  // ---------- what a lookup returns after any sequence of calls ----------

  /** The lookup without a cache. */
  function Uncached(original: map<string, string>, key: string, agent: Agent): Item {
    if key in original && !(VAULT_PREFIX <= original[key]) then Item(original[key])
    else ItemOf(agent(key, Lookup(original, key)))
  }

  predicate Looks(op: Op, key: string) {
    (op.Get? || op.Has?) && op.key == key
  }

  /** Call `i` looked `key` up and its agent's answer for `binding` is what the entry holds. */
  predicate FromCall(ops: seq<Op>, i: nat, key: string, binding: Option<string>, e: Entry) {
    i < |ops| && Looks(ops[i], key) && e == Entry(ops[i].agent(key, binding), ops[i].storeAt)
  }

  /** Every entry holds an earlier call's answer for the binding the key has now. */
  ghost predicate Explained(p: Proxy, ops: seq<Op>) {
    forall key | key in p.cache :: exists i :: FromCall(ops, i, key, Lookup(p.original, key), p.cache[key])
  }

  lemma ApplyKeepsExplained(p: Proxy, ttl: nat, ops: seq<Op>, op: Op)
    requires Explained(p, ops)
    ensures Explained(Apply(p, ttl, op), ops + [op])
  {
    var p' := Apply(p, ttl, op);
    forall key | key in p'.cache
      ensures exists i :: FromCall(ops + [op], i, key, Lookup(p'.original, key), p'.cache[key])
    {
      if key in p.cache && p'.cache[key] == p.cache[key] && Lookup(p'.original, key) == Lookup(p.original, key) {
        var i :| FromCall(ops, i, key, Lookup(p.original, key), p.cache[key]);
        assert FromCall(ops + [op], i, key, Lookup(p'.original, key), p'.cache[key]);
      } else {
        assert FromCall(ops + [op], |ops|, key, Lookup(p'.original, key), p'.cache[key]);
      }
    }
  }

  lemma {:induction false} AlwaysExplained(original: map<string, string>, ttl: nat, ops: seq<Op>)
    ensures Explained(ApplyAll(Proxy(original, map[], map[]), ttl, ops), ops)
  {
    hide Apply, FromCall;
    if ops == [] {
    } else {
      var before := ops[..|ops| - 1];
      AlwaysExplained(original, ttl, before);
      ApplyKeepsExplained(ApplyAll(Proxy(original, map[], map[]), ttl, before), ttl, before, ops[|ops| - 1]);
      assert before + [ops[|ops| - 1]] == ops;
    }
  }

  /** Main result: after any sequence of calls made one at a time, a lookup returns what an
      uncached one would, or what the agent told an earlier lookup of the key, made less than
      the TTL before, about the very binding the key has now. So it is the uncached lookup
      when those answers agree, and always with TTL 0 on a monotone clock. */
  lemma {:induction false} GetRefinesUncached(original: map<string, string>, ttl: nat, ops: seq<Op>, key: string,
                                              agent: Agent, checkAt: nat, storeAt: nat)
    ensures var p := ApplyAll(Proxy(original, map[], map[]), ttl, ops);
            var item := Got(p, ttl, key, agent, checkAt, storeAt).0;
            item == Uncached(p.original, key, agent)
            || exists i: nat | i < |ops| && Looks(ops[i], key) ::
                 checkAt - ops[i].storeAt < ttl && item == ItemOf(ops[i].agent(key, Lookup(p.original, key)))
    ensures var p := ApplyAll(Proxy(original, map[], map[]), ttl, ops);
            (forall i: nat | i < |ops| && Looks(ops[i], key) && checkAt - ops[i].storeAt < ttl ::
               ops[i].agent(key, Lookup(p.original, key)) == agent(key, Lookup(p.original, key)))
            ==> Got(p, ttl, key, agent, checkAt, storeAt).0 == Uncached(p.original, key, agent)
  {
    var p := ApplyAll(Proxy(original, map[], map[]), ttl, ops);
    AlwaysExplained(original, ttl, ops);
    if NeedsAgent(p, key) && key in p.cache {
      var i :| FromCall(ops, i, key, Lookup(p.original, key), p.cache[key]);
    }
  }

  // ---------- what assignments and deletions do to later lookups ----------

  predicate Writes(op: Op, key: string) {
    (op.Set? || op.Del?) && op.key == key
  }

  lemma {:induction false} ApplyAppend(p: Proxy, ttl: nat, first: seq<Op>, second: seq<Op>)
    ensures ApplyAll(p, ttl, first + second) == ApplyAll(ApplyAll(p, ttl, first), ttl, second)
  {
    hide Apply;
    if second == [] {
      assert first + second == first;
    } else {
      var front := second[..|second| - 1];
      ApplyAppend(p, ttl, first, front);
      assert (first + second)[..|first + second| - 1] == first + front;
    }
  }

  lemma ApplyKeepsBinding(p: Proxy, ttl: nat, op: Op, key: string)
    requires !Writes(op, key)
    ensures Lookup(Apply(p, ttl, op).original, key) == Lookup(p.original, key)
  {
  }

  /** Calls that do not write a key leave its binding alone ... */
  lemma {:induction false} Unwritten(p: Proxy, ttl: nat, ops: seq<Op>, key: string)
    requires forall op | op in ops :: !Writes(op, key)
    ensures Lookup(ApplyAll(p, ttl, ops).original, key) == Lookup(p.original, key)
  {
    hide Apply, Writes;
    if ops == [] {
    } else {
      var before, op := ops[..|ops| - 1], ops[|ops| - 1];
      assert op in ops;
      Unwritten(p, ttl, before, key);
      ApplyKeepsBinding(ApplyAll(p, ttl, before), ttl, op, key);
    }
  }

  /** ... and put it in the cache only with their own agents' answers for that binding. */
  lemma {:induction false} CachedSince(p: Proxy, ttl: nat, ops: seq<Op>, key: string)
    requires key !in p.cache && forall op | op in ops :: !Writes(op, key)
    ensures var q := ApplyAll(p, ttl, ops);
            key in q.cache ==> exists i :: FromCall(ops, i, key, Lookup(p.original, key), q.cache[key])
  {
    if ops == [] {
    } else {
      var before, op := ops[..|ops| - 1], ops[|ops| - 1];
      CachedSince(p, ttl, before, key);
      Unwritten(p, ttl, before, key);
      assert op in ops;
      var q, q' := ApplyAll(p, ttl, before), ApplyAll(p, ttl, ops);
      if key in q'.cache {
        if key in q.cache && q'.cache[key] == q.cache[key] {
          var i :| FromCall(before, i, key, Lookup(p.original, key), q.cache[key]);
          assert FromCall(ops, i, key, Lookup(p.original, key), q'.cache[key]);
        } else {
          assert FromCall(ops, |ops| - 1, key, Lookup(p.original, key), q'.cache[key]);
        }
      }
    }
  }

  /** The answer is this lookup's own, or that of a lookup among `ops` less than the TTL before,
      for `binding`. */
  ghost predicate AnsweredSince(ops: seq<Op>, ttl: nat, key: string, binding: Option<string>, agent: Agent,
                                checkAt: nat, item: Item)
  {
    || item == ItemOf(agent(key, binding))
    || exists i: nat | i < |ops| && Looks(ops[i], key) ::
         checkAt - ops[i].storeAt < ttl && item == ItemOf(ops[i].agent(key, binding))
  }

  lemma LookupSince(p: Proxy, ttl: nat, ops: seq<Op>, key: string, agent: Agent, checkAt: nat, storeAt: nat)
    requires key !in p.cache && NeedsAgent(p, key) && forall op | op in ops :: !Writes(op, key)
    ensures AnsweredSince(ops, ttl, key, Lookup(p.original, key), agent, checkAt,
                          Got(ApplyAll(p, ttl, ops), ttl, key, agent, checkAt, storeAt).0)
  {
    hide Apply;
    Unwritten(p, ttl, ops, key);
    CachedSince(p, ttl, ops, key);
    var q := ApplyAll(p, ttl, ops);
    if key in q.cache {
      var i :| FromCall(ops, i, key, Lookup(p.original, key), q.cache[key]);
    }
    hide ApplyAll;
    assert Lookup(q.original, key) == Lookup(p.original, key);
  }

  /** Main result on assignment: until the key is written again it is bound to what was assigned
      last. A plain value is returned as it is; a reference is answered for that reference, by
      the lookup itself or by one made since the assignment. */
  lemma AfterSet(original: map<string, string>, ttl: nat, before: seq<Op>, key: string, value: string, after: seq<Op>,
                 agent: Agent, checkAt: nat, storeAt: nat)
    requires forall op | op in after :: !Writes(op, key)
    ensures var p := ApplyAll(Proxy(original, map[], map[]), ttl, before + [Set(key, value)] + after);
            var item := Got(p, ttl, key, agent, checkAt, storeAt).0;
            && key in p.original && p.original[key] == value
            && (!("vault:" <= value) ==> item == Item(value))
            && ("vault:" <= value ==> AnsweredSince(after, ttl, key, Some(value), agent, checkAt, item))
  {
    var start := Proxy(original, map[], map[]);
    var written := ApplyAll(start, ttl, before + [Set(key, value)]);
    ApplyAppend(start, ttl, before + [Set(key, value)], after);
    assert (before + [Set(key, value)])[..|before|] == before;
    Unwritten(written, ttl, after, key);
    if "vault:" <= value {
      LookupSince(written, ttl, after, key, agent, checkAt, storeAt);
    }
  }

  /** Main result on deletion: until the key is assigned again it is unbound, and a lookup of it
      is answered for no binding, by the lookup itself or by one made since the deletion. */
  lemma AfterDel(original: map<string, string>, ttl: nat, before: seq<Op>, key: string, after: seq<Op>,
                 agent: Agent, checkAt: nat, storeAt: nat)
    requires key in ApplyAll(Proxy(original, map[], map[]), ttl, before).original
    requires forall op | op in after :: !Writes(op, key)
    ensures var p := ApplyAll(Proxy(original, map[], map[]), ttl, before + [Del(key)] + after);
            && key !in p.original
            && AnsweredSince(after, ttl, key, None, agent, checkAt, Got(p, ttl, key, agent, checkAt, storeAt).0)
  {
    var start := Proxy(original, map[], map[]);
    var written := ApplyAll(start, ttl, before + [Del(key)]);
    ApplyAppend(start, ttl, before + [Del(key)], after);
    assert (before + [Del(key)])[..|before|] == before;
    Unwritten(written, ttl, after, key);
    LookupSince(written, ttl, after, key, agent, checkAt, storeAt);
  }

  /** A key that no call writes keeps the binding it had at the start. */
  lemma NeverWritten(original: map<string, string>, ttl: nat, ops: seq<Op>, key: string)
    requires forall op | op in ops :: !Writes(op, key)
    ensures Lookup(ApplyAll(Proxy(original, map[], map[]), ttl, ops).original, key) == Lookup(original, key)
  {
    Unwritten(Proxy(original, map[], map[]), ttl, ops, key);
  }
}
