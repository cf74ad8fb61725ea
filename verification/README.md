# EnvProxy, modelled and proved

EnvProxy resolves environment variables from a secret store at lookup time. A client (the
`getenv` preload library, the Python `os.environ` proxy, the Java environment map) sends a
length-prefixed request over a Unix socket to a local agent; the agent answers from a backend
that caches, either Vault with a TTL or a JSON file with modification-time checks. The Python and
Java clients cache the agent's answers again. This project models that path and proves what its
caches, its reference language and its wire format guarantee.

## How it is modelled

- Code that changes state is a class or a method: `VaultCache.VaultBackend`,
  `FileBackends.FileBackend`, `PyEnviron.EnvProxyEnviron`, `TtlProxy.EnvProxyMap`, the encoders, the
  exact-read loops, the connection handler, the clients and the token renewal loop. Their
  contracts give the whole new state.
- Concurrency is a machine of small steps (`VaultMachine`, `FileMachine`, `HookMachine`,
  `TtlProxy`): one step per lock-protected section, Vault read, stat, file read, query or clock
  tick. A run is any sequence of actions; an action that is not enabled changes nothing.
  `VaultTheorems.LoneCallIsResolve`, `FileTheorems.LoneCallIsResolve`, `HookRuns.LoneLookup` and
  `TtlProxy.LoneCallIsGet` show that an undisturbed call of a machine returns and stores what the
  specification of the class method says.
- Vault is an arbitrary function of time and secret, JSON parsing an arbitrary partial function,
  the agent of a client an arbitrary function, a stream delivers chunks of arbitrary size. Every
  result holds for all of them.
- State components called history are written by steps and read only by theorems.

| file | models |
|---|---|
| Decimal.dfy, VaultRef.dfy | `vault:` references: parsing, printing, normal forms |
| VaultCache.dfy, VaultMachine.dfy, VaultTheorems.dfy | the Vault backend's cache, alone and under concurrency |
| FileBackend.dfy, FileMachine.dfy, FileTheorems.dfy, FileAge.dfy, FileGone.dfy | the file backend, alone and under concurrency |
| Codec.dfy, Streams.dfy, Server.dfy, EndToEnd.dfy | wire format, reading loops, agent side, the three clients end to end |
| PyEnviron.dfy | the Python proxy one call at a time |
| HookMachine.dfy, HookRuns.dfy, HookExact.dfy | the Python proxy's cache on top of the agent's, concurrent |
| TtlProxy.dfy | the Java map alone; either proxy's cache with many threads and any agent |
| TokenRenewal.dfy | the token renewal loop |

## Where the obvious claim is false

Each of these is a theorem with the exact condition under which the claim holds.

- Cached values are filed under the reference they answer exactly when no key of an unversioned
  secret is named like `a#3` (a non-empty part, a hash, a 64-bit number):
  `VaultTheorems.FaithfulExactlyForSafeNames`; `MisfilingRun` builds the failing run.
- References that parse can be answered from the cache exactly when they are spelled the way
  the backend prints them and the TTL is positive: `HitsExactlyNormalForms`.
- When the file has become stable, later calls answer from it exactly when its modification
  time was not used for other contents that could have been cached under it:
  `FileTheorems.StableFileExactly`. Equal times meaning equal contents is not enough
  (`HonestTimesAreNotEnough`), and what a load read before its stat saw a newer version is served
  until the next write (`ChangeInsideLoadIsStale`). `DistinctStampsSuffice` gives a condition that
  is easy to meet.
- A file call's answer was current after the call, or one still running when it began, had
  started, exactly when no version reuses the modification time of older contents
  (`FileAge.OverlapExactly`). The call's own start is enough exactly when nothing that can be
  cached differs in meaning (`FileAge.OwnStartExactly`); otherwise `OldStoreAnswers` builds a run
  with an older answer.
- Once the file has gone, later calls find nothing exactly when keys can never have been stored
  without a modification time: `FileGone.GoneFileExactly`, with and without failing stats.
- The repository's README.md (line 103) promises that a rotated secret is picked up within the
  cache TTL. The code stacks two caches: the worst age of an answer is the sum of both TTLs, less
  one instant each, and both latencies (`HookExact.WorstAgeExactly`), so one TTL bounds it
  exactly when the other is at most one instant (`OneTtlPromise`).
- A Python lookup is answered for the binding it read, in every run, exactly when the hook caches
  nothing or assignments of a key neither overlap its lookups nor have one begin between their
  two statements: `HookExact.OwnBindingsExactly`. `RacingLookup` builds the failing run, and
  `HookMachine.BindingAge` bounds the age of the binding whatever races there are.
- The buffer decoder reads any version but 1 as version 2; the connection handler refuses it
  (`Server.UnknownVersionsDiffer`).
- A Java request shows the agent the whole reference exactly when that is at most 65535 bytes
  (`EndToEnd.JavaSeenWhole`); beyond, the agent is asked about a part of it.
- Keeping every renewal round below the time the sleep leaves is not enough to keep the token
  (`TokenRenewal.FullBudgetPerRoundLapses`): the reply of one round and the renewal of the next add up.

## Model

| member | source | states |
|---|---|---|
| Decimal.DecimalRoundTrip | crates/envproxy-proto/src/lib.rs:295-298 | reading back a printed version gives it; an accepted version text is the printed one exactly when it is canonical |
| Decimal.ParseU64Exactly | crates/envproxy-proto/src/lib.rs:295-298 | a text is read as a 64-bit number exactly when it is the printed number behind any zeros and at most one plus sign |
| VaultRefs.FindChar | crates/envproxy-proto/src/lib.rs:286 | the first occurrence, or none |
| VaultRefs.FindFrom | crates/envproxy-proto/src/lib.rs:306 | the first occurrence of a text, or none |
| VaultRefs.ParseRefExactly | crates/envproxy-proto/src/lib.rs:282-323 | a text is parsed to a reference exactly when it spells it: mount up to the first `/data/`, or up to the first slash when there is none, then the path, the key behind the first hash, and a version behind the second |
| VaultRefs.SlashSpelling | crates/envproxy-proto/src/lib.rs:310-315 | without `/data/` the first segment is the mount and the rest the path: the same reference as the spelling with it |
| VaultRefs.AcceptedIsWellFormed | crates/envproxy-proto/src/lib.rs:282-323 | whatever the parser accepts has non-empty parts without hashes and no `/data/` in mount plus slash, so it can be printed and parsed back |
| VaultRefs.RefRoundTrip | crates/envproxy-proto/src/lib.rs:282-323 | a printed reference parses back to itself exactly when it is well formed |
| VaultRefs.NormalizeIdempotent | crates/envproxy-agent/src/backend/vault.rs:345-357 | printing what was parsed keeps the meaning and is a normal form |
| VaultRefs.NormalFormSpelling | crates/envproxy-proto/src/lib.rs:295-316 | normal forms are exactly the spellings with `/data/` and a canonical version |
| VaultCache.CacheKeyMeaning | crates/envproxy-agent/src/backend/vault.rs:345-357 | the text a key is cached under parses to nothing or to that very key exactly when the name is safe |
| VaultCache.MisfiledMeaning | crates/envproxy-agent/src/backend/vault.rs:355 | an unsafe name is taken for its first part at the version it ends in |
| VaultCache.CacheKeyInjective | crates/envproxy-agent/src/backend/vault.rs:345-357 | different keys of one secret are cached under different texts |
| VaultCache.VaultBackend.FillSiblings | crates/envproxy-agent/src/backend/vault.rs:342-359 | in any order of keys, the cache ends with every key of the secret stored with one expiry and nothing else changed |
| VaultCache.VaultBackend.ResolveWithValue | crates/envproxy-agent/src/backend/vault.rs:306-362 | parse error, live hit, failed read, and fetch with fill: answer and new cache in each case, for the secret that `ParseRefExactly` says the text names |
| VaultMachine.StepPreservesInv | crates/envproxy-agent/src/backend/vault.rs:306-362 | every step of any number of calls keeps each entry tied to a genuine read of Vault and each call's answer to its source |
| VaultMachine.RunPreservesInv | crates/envproxy-agent/src/backend/vault.rs:306-362 | the same over whole runs |
| VaultTheorems.LoneCallIsResolve | crates/envproxy-agent/src/backend/vault.rs:306-362 | an undisturbed call of the machine has the outcome and leaves the cache of `ResolveWithValue`: parse error, hit, failed read, or fetch with fill |
| VaultTheorems.SafeNamesSuffice | crates/envproxy-agent/src/backend/vault.rs:311-361 | in every reachable state an entry found under a text holds Vault's value, at one fetch instant, for exactly what the text parses to |
| VaultTheorems.MisfilingRun | crates/envproxy-agent/src/backend/vault.rs:355 | for every unsafe name, a run that files its value as another key's version |
| VaultTheorems.FaithfulExactlyForSafeNames | crates/envproxy-agent/src/backend/vault.rs:311-361 | all runs file correctly exactly when all names are safe |
| VaultTheorems.CacheIsLatestFills | crates/envproxy-agent/src/backend/vault.rs:341-359 | after any run each key's entry is the one from the last fill of its secret that had the key |
| VaultTheorems.Snapshot | crates/envproxy-agent/src/backend/vault.rs:341-359 | keys a secret always has together are cached together, from one fetch, with one expiry |
| VaultTheorems.AnswerAge | crates/envproxy-agent/src/backend/vault.rs:312-361 | an answer was Vault's value within the call, or less than TTL plus fill latency before |
| VaultTheorems.AbsentAnswer | crates/envproxy-agent/src/backend/vault.rs:361 | an absent answer means Vault lacked the key at an instant within the call |
| VaultTheorems.ExpiryNeverDecreases | crates/envproxy-agent/src/backend/vault.rs:344-357 | entries stay and their expiry never moves back |
| VaultTheorems.NoNeedlessRefetch | crates/envproxy-agent/src/backend/vault.rs:312-319 | until the TTL after a fill is over, every key of the secret is answered without a Vault read |
| VaultTheorems.HitsExactlyNormalForms | crates/envproxy-agent/src/backend/vault.rs:312-319 | a text can be a cache hit exactly when it is a normal form and the TTL is positive |
| FileBackends.NeedsReload | crates/envproxy-agent/src/backend/file.rs:126-133 | reload exactly when cached and current time differ |
| FileBackends.FileBackend.Reload | crates/envproxy-agent/src/backend/file.rs:71-107 | succeeds exactly when there is no file or it parses; new data and time, or none; on a malformed file or a failed read nothing changes |
| FileBackends.FileBackend.Resolve | crates/envproxy-agent/src/backend/file.rs:121-166 | for equal times the cached answer; otherwise no file, failed read, malformed and readable file each with their answer and new data and time |
| FileBackends.FailedParseTouchesNothing | crates/envproxy-agent/src/backend/file.rs:149-152 | a call that cannot parse the file says so and leaves the cache alone |
| FileBackends.DishonestScheduleIsStale | crates/envproxy-agent/src/backend/file.rs:126-133 | a repeated time with different contents yields a schedule with a stale answer |
| FileBackends.SequentialRefinement | crates/envproxy-agent/src/backend/file.rs:121-166 | one call at a time, all schedules answer from the file as it is now exactly when modification times are honest |
| FileMachine.StepPreservesInv | crates/envproxy-agent/src/backend/file.rs:121-166 | every step keeps the cached data tied to a version read no earlier than the stat that stamps it |
| FileTheorems.LoneCallIsResolve | crates/envproxy-agent/src/backend/file.rs:121-166 | an undisturbed call of the machine answers and caches as the class's `Resolve`, whether or not its stat or its read fails |
| FileTheorems.LaterCallsAnswerFromTheFile | crates/envproxy-agent/src/backend/file.rs:121-166 | with no reused stamp, calls begun after older ones drained answer from the stable file |
| FileTheorems.StaleLaterAnswer | crates/envproxy-agent/src/backend/file.rs:123-157 | with a reused stamp, a run whose later call answers otherwise |
| FileTheorems.StableFileExactly | crates/envproxy-agent/src/backend/file.rs:121-166 | the two above as one equivalence, per file history |
| FileTheorems.DistinctStampsSuffice | crates/envproxy-agent/src/backend/file.rs:71-98 | times never used twice and an undisturbed load are enough |
| FileTheorems.HonestTimesAreNotEnough | crates/envproxy-agent/src/backend/file.rs:126-133 | equal times meaning equal contents is not enough |
| FileTheorems.ChangeInsideLoadIsStale | crates/envproxy-agent/src/backend/file.rs:72-75 | when the load's stat saw a newer version than its read, every answer until the next write is from the version read, in every run without failing stats |
| FileAge.AnswersFromOverlap | crates/envproxy-agent/src/backend/file.rs:126-166 | with no reused older stamp, the contents behind an informed answer were current after the call, or one still running when it began, had started |
| FileAge.OldStampAnswer | crates/envproxy-agent/src/backend/file.rs:126-133 | with a reused older stamp, a run whose lone call answers from before its start |
| FileAge.OverlapExactly | crates/envproxy-agent/src/backend/file.rs:126-166 | the two above as one equivalence, per file history |
| FileAge.AloneFromOwnStart | crates/envproxy-agent/src/backend/file.rs:126-166 | a call that begins with no other running answers from its own start on |
| FileAge.OldStoreAnswers | crates/envproxy-agent/src/backend/file.rs:154-166 | for every readable older version, a run whose last call begins at the last version and answers from the older one, which another call stores between its two lock sections |
| FileAge.OwnStartExactly | crates/envproxy-agent/src/backend/file.rs:154-166 | while the file stays readable, all answers are from their call's own start on exactly when all versions and a stamped load parse alike |
| FileGone.StoresUnstamped | crates/envproxy-agent/src/backend/file.rs:123-157 | for every stat that gave no time followed by a version with keys, a run that caches those keys without a time |
| FileGone.GoneFileExactly | crates/envproxy-agent/src/backend/file.rs:121-166 | for a history ending with the file gone, later calls find nothing in every run exactly when no keys can be stored without a time, by the load or by such a pair |
| Codec.EncodeRequest | crates/envproxy-proto/src/lib.rs:99-131 | the buffer built step by step, byte by byte: version, lengths most significant byte first, key and value; nothing exactly when a part is oversize |
| Codec.EncodeResponse | crates/envproxy-proto/src/lib.rs:137-150 | the same for responses, with the status codes 0 to 3 |
| Codec.RequestDecodedExactly | crates/envproxy-proto/src/lib.rs:200-234 | a request is decoded exactly from the buffers that start with its encoding |
| Codec.RequestIncompleteExactly | crates/envproxy-proto/src/lib.rs:200-234 | more bytes are asked for exactly when some message properly extends the buffer |
| Codec.RequestRoundTrip | crates/envproxy-proto/src/lib.rs:99-131 | decoding an encoded request, whatever follows, gives it back, an empty value as none |
| Codec.ResponseDecodedExactly | crates/envproxy-proto/src/lib.rs:242-255 | a response is decoded exactly from the buffers that start with its encoding |
| Codec.InvalidStatusExactly | crates/envproxy-proto/src/lib.rs:242-255 | an invalid status is reported exactly for whole headers with a status byte over 3 |
| Codec.ResponseCutAnywhere | crates/envproxy-cli/src/main.rs:268-271 | one short read of a response gives the answer or an error, never another value |
| Streams.RecvExact | support/python/_envproxy_hook.py:103-114 | for every chunking, exactly the next n bytes and the rest left, or nothing on a short stream |
| Streams.ReadFully | support/java/src/envproxy/EnvProxyMap.java:211-217 | the same, filling a buffer in place |
| Server.ReadBody | crates/envproxy-agent/src/server.rs:101-121 | key and value read piece by piece are the decoder's, consuming exactly the message |
| Server.WrittenBytes | crates/envproxy-agent/src/server.rs:143-160 | status code, length and contents written for each kind of reply, nothing when the contents are oversize |
| Server.HandleConnection | crates/envproxy-agent/src/server.rs:80-163 | for every chunking the handler agrees with the buffer decoder and fails exactly when bytes are lacking; a value that begins with the bytes of `vault:` is resolved as a reference, any other request by its key; other versions get the error text |
| Server.UnknownVersionsDiffer | crates/envproxy-agent/src/server.rs:89-99 | the decoder takes an unknown version for 2, the handler answers with an error |
| EndToEnd.ReadReplyC | crates/libenvproxy/src/lib.rs:270-308 | the reply's value if whole, found and free of zero bytes |
| EndToEnd.ReadReplyPython | support/python/_envproxy_hook.py:76-95 | the reply's value if whole and found |
| EndToEnd.ReadReplyJava | support/java/src/envproxy/EnvProxyMap.java:187-204 | the same |
| EndToEnd.AnswerOfReply | crates/envproxy-agent/src/server.rs:143-160 | a reply cut anywhere reads as no answer, a whole one as the backend's value if it fits |
| EndToEnd.ServedRequest | crates/envproxy-agent/src/server.rs:84-160 | a cut request gets no response, a whole one the backend's reply |
| EndToEnd.QueryAgentC | crates/libenvproxy/src/lib.rs:244-309 | over any link, the direct backend call or nothing |
| EndToEnd.Getenv | crates/libenvproxy/src/lib.rs:329-385 | over any link: a reference is answered by the backend's reference lookup, anything else by its key lookup, if the value gets back whole, fits and has no zero byte; in all other cases, when disabled, and for `ENVPROXY_` variables, the real value |
| EndToEnd.QueryAgentPython | support/python/_envproxy_hook.py:37-100 | over any link, the fitting value of the backend's reference or key lookup, or nothing |
| EndToEnd.JavaRequestDecoded | support/java/src/envproxy/EnvProxyMap.java:167-176 | what the agent reads of a Java request, and that it is the whole reference exactly within bounds |
| EndToEnd.JavaWithinBounds | support/java/src/envproxy/EnvProxyMap.java:157-176 | within bounds the direct answer, beyond them a question about another reference |
| EndToEnd.JavaSeenWhole | support/java/src/envproxy/EnvProxyMap.java:157-176 | what the agent takes for the request is a prefix of the bytes sent, all of them exactly when the reference is within bounds |
| EndToEnd.JavaServed | crates/envproxy-agent/src/server.rs:84-160 | a Java request cut before what the agent reads gets nothing, any other the backend's reply for what it shows |
| EndToEnd.QueryAgentJava | support/java/src/envproxy/EnvProxyMap.java:150-209 | over any link, the backend's answer for what the agent saw; within bounds the fitting value of its reference or key lookup, or nothing |
| PyEnviron.EnvProxyEnviron.GetItem | support/python/_envproxy_hook.py:150-176 | real value; value or KeyError of an entry younger than the TTL; or the agent's answer for the binding, stored, with KeyError when it has none |
| PyEnviron.EnvProxyEnviron.SetItem | support/python/_envproxy_hook.py:178-182 | the key is bound to the value and its entry dropped, nothing else changes |
| PyEnviron.EnvProxyEnviron.DelItem | support/python/_envproxy_hook.py:184-186 | binding and entry of a bound key gone, nothing touched when absent |
| PyEnviron.EnvProxyEnviron.Contains | support/python/_envproxy_hook.py:194-202 | present in the environment or resolvable, with the lookup's effect on the cache |
| PyEnviron.AlwaysCoherent | support/python/_envproxy_hook.py:150-202 | after any sequence of calls every entry came from a query with the key's present binding |
| PyEnviron.AlwaysExplained | support/python/_envproxy_hook.py:150-202 | after any sequence of calls every entry holds what the agent told one of those calls about the key's present binding |
| PyEnviron.GetRefinesUncached | support/python/_envproxy_hook.py:150-202 | after any sequence of calls a lookup returns the uncached answer, or an earlier one younger than the TTL for the same binding, so the uncached one when those agree |
| PyEnviron.AfterSet | support/python/_envproxy_hook.py:178-182 | after an assignment, until the key is written again, whatever else is called: it is bound to the value; a plain value is returned, a reference answered by queries made since for that reference |
| PyEnviron.AfterDel | support/python/_envproxy_hook.py:184-186 | after a deletion, until the key is assigned again: it is unbound and answered by queries made since, for no binding |
| PyEnviron.NeverWritten | support/python/_envproxy_hook.py:150-202 | a key that no call writes keeps its binding |
| HookMachine.StepPreservesInv | support/python/_envproxy_hook.py:150-186 | every step of concurrent lookups, assignments and agent calls keeps entries tied to agent answers within their query |
| HookMachine.ComposedStaleness | support/python/_envproxy_hook.py:162-174 | a returned value was Vault's for the reference asked about, at most both TTLs, less an instant each, and both latencies before |
| HookMachine.ReturnedForCurrentBinding | support/python/_envproxy_hook.py:150-186 | an answer whose own query no assignment overlapped, and whose entry is not about to be dropped, is for the binding the key has at that step |
| HookMachine.BindingAge | support/python/_envproxy_hook.py:150-174 | whatever races, the binding behind an answer was the key's less than the TTL plus one lookup's latency before |
| HookRuns.LoneLookup | support/python/_envproxy_hook.py:150-176 | an undisturbed lookup of the machine returns and stores what `GetItem` is specified to |
| HookRuns.LoneAssignment | support/python/_envproxy_hook.py:178-182 | the two statements of an assignment, undisturbed, are `SetItem` |
| HookRuns.LoneDeletion | support/python/_envproxy_hook.py:184-186 | those of a deletion are `DelItem` |
| HookExact.TtlsAddUp | README.md:103 | for any reference and value, a run within the latencies that returns the value at the worst age, to a lookup begun at that instant if the hook caches |
| HookExact.WorstAgeExactly | support/python/_envproxy_hook.py:146-174 | for all TTLs and latencies a bound on the age of answers holds in every run exactly when it is at least the worst age |
| HookExact.OneTtlPromise | README.md:103 | without latency, one TTL bounds the age exactly when one of the two is at most one instant |
| HookExact.RacingLookup | support/python/_envproxy_hook.py:171-182 | for any two references, a run whose lookup, begun after the second was assigned with nothing unfinished, returns the first one's value |
| HookExact.OwnBindingsExactly | support/python/_envproxy_hook.py:150-186 | every lookup is answered for the binding it read exactly when the hook caches nothing or assignments are undisturbed |
| TtlProxy.EnvProxyMap.Get | support/java/src/envproxy/EnvProxyMap.java:55-84 | real value; value (absent ones too) of an entry whose age is below the TTL, nothing asked or changed; or the agent's answer, stored with the time |
| TtlProxy.EnvProxyMap.ContainsKey | support/java/src/envproxy/EnvProxyMap.java:87-92 | in the original map or resolvable |
| TtlProxy.LoneCallIsGet | support/java/src/envproxy/EnvProxyMap.java:55-84 | an undisturbed call of the machine returns and leaves what `Get` does |
| TtlProxy.FreshEntriesServe | support/java/src/envproxy/EnvProxyMap.java:71-76 | once an answer is put at an instant, every check of the key before that instant plus TTL returns from the cache, whatever threads do, unless the entry is dropped |
| TtlProxy.LastWriteCounts | support/python/_envproxy_hook.py:178-186 | in every run a key is bound to what was assigned last, or to nothing after a deletion |
| TtlProxy.ZeroTtl | support/java/src/envproxy/EnvProxyMap.java:73 | with TTL 0 an entry is used only when the clock stepped back |
| TtlProxy.RefinesUncached | support/java/src/envproxy/EnvProxyMap.java:55-84 | with any number of threads, and assignments and deletions as in Python, an answer (absent ones included) is the agent's at an instant of the last TTL plus latency for a binding of that window, so the uncached one when neither mattered |
| TtlProxy.RealValues | support/python/_envproxy_hook.py:150-158 | a real value is the key's at the instant the lookup began |
| TtlProxy.ZeroTtlIsUncached | support/java/src/envproxy/EnvProxyMap.java:70-83 | with TTL 0 the answer was given within the lookup, for the binding it read |
| TokenRenewal.IntervalWithinLease | crates/envproxy-agent/src/backend/vault.rs:229-232 | the sleep ends within the lease exactly when the lease is over ten seconds |
| TokenRenewal.EveryInstantCovered | crates/envproxy-agent/src/backend/vault.rs:234-250 | a run that never lapses has a valid grant at every instant |
| TokenRenewal.RenewalLoop | crates/envproxy-agent/src/backend/vault.rs:224-251 | the loop keeps the token exactly when no renewal comes after expiry |
| TokenRenewal.TokenNeverLapses | crates/envproxy-agent/src/backend/vault.rs:229-250 | delays within what the sleep leaves of the lease suffice, and are needed when renewals grant no more than the login did |
| TokenRenewal.HalfBudgetSuffices | crates/envproxy-agent/src/backend/vault.rs:229-250 | half of that per round is enough |
| TokenRenewal.FullBudgetPerRoundLapses | crates/envproxy-agent/src/backend/vault.rs:229-250 | all of it per round is not |
| TokenRenewal.ShortLeaseLapses | crates/envproxy-agent/src/backend/vault.rs:231-232 | leases of ten seconds or less are always lost |

## Left out

- Sockets, tasks, Vault's HTTP and authentication calls: abstract functions and steps. End of stream, read errors and timeouts are one thing, a stream that ends early.
- Reads of the file are taken to see one version of it; a writer caught half-way is not modelled.
- `VaultMachine.Step`: the read lock on the Vault client and its replacement after login, which no cached value depends on.
- `HookMachine.Step`: deletion of an absent key and membership tests, which add nothing to lookups; both are in `PyEnviron`.
- `TtlProxy.Step`: the wall clock Java reads is taken never to step back; `ZeroTtl` says what happens otherwise.
- `TokenRenewal.Interval`: in a build with overflow checks the doubling of a lease of 2^63 seconds or more panics; the model wraps around as release builds do. Failed renewals are not modelled.
- UTF-8: keys and values are bytes on the wire and text in the caches; lossy decoding and surrogate escapes are not modelled.
- `parse_duration`, configuration, JSON and TOML parsing: the TTL is a number and parsing a function.
- dlsym, leaked C strings, library constructors, support directory search, reflection, logging.
- The HTTP placeholder and Kubernetes backends, the sidecar injector, the command line tool beyond its one read: only easy members.
