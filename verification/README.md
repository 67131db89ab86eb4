# skaidb driver verification

A Dafny model of the skaidb client driver: how values are stored, keyed and compared, how a balanced
connection pool behaves over every run, how messages travel and come back, who is authorised to do what,
and what date a log line carries. `dafny verify dfyconfig.toml` checks all of it.

The code that changes things in place is modelled that way (buffers, cursors, the role store, the pool,
row streams, pipeline slots, digit buffers) and each method is proved against a function; what the driver
promises is then proved about those functions for all inputs, all runs or all reachable states.

- **Values** (`Bytes`, `Sequences`, `Values`, `Utf8Text`, `Decimals`, `Arithmetic`): bytes, documents as strictly name-sorted
  fields, doubles as 64-bit patterns, strings as UTF-8 byte sequences, exact decimals.
- **Keys** (`Keys`, `KeyTheorems`, `KeyWriter`): the order-preserving key encoding and the exact one.
- **Codec** (`Codec`, `CodecCursor`, `CodecLocal`) and the reads that avoid full decoding (`DocSelect`,
  `DocReads`, `DocScans`, `GroupKeys`, `ReservedGate`).
- **Roles** (`SortedNames`, `Rbac`): search over a role graph that may be cyclic or dangling.
- **Pool** (`PoolMembers`, `Discovery`, `Pool`, `PoolAccounts`, `PoolHealth`, `StaleProbe`, `PoolAffinity`,
  `PoolSeeds`, `PoolReturn`, `PoolTiming`, `PoolChoice`, `DialOrder`, `Balancer`): every section the driver runs under the pool's lock is one step of
  a state machine. Dial and probe results, random draws and latency verdicts are inputs of the steps, so the
  theorems hold for all of them. A clock read under the lock is monotone; the two reads made before taking
  it (`tick`, `wrote`) may lag.
- **Wire** (`WireLists`, `Frame`, `Messages`, `MessageTheorems`, `MessageWriter`, `MessageReader`,
  `RowStream`, `Pipeline`): from message to frame to bytes and back.
- **Log time** (`Calendar`, `Timestamp`). **Layouts** (`Layouts`): what is stored or sent, in literal bytes.

What the proofs found where the code and its promise part:

- NULL and the terminator are the same key byte, so a NULL inside a *nested* array makes two different
  arrays share a key (`NestedNullCollides`, `NullUnderDocumentCollides`), and so does an empty document name
  (`EmptyNameCollides`). Order and injectivity hold for `Clean` values: no NULL in an array, no document name
  that is empty or begins with U+0000, at any depth. Without documents that is exactly when no other key is a
  proper prefix (`CleanExactly`). A top-level array may hold NULLs.
- `doc_has_reserved` stops early on the assumption that names are sorted. Decoding accepts unsorted bytes,
  and there it can miss a reserved field (`GateMissesUnsorted`); `GateExact` says exactly when.
- "Only folding a listing can leave no usable member" needs care: a probe may outlive the member it was
  sent for. `StepKeepsUsable` and `RunTakesLast` give the exact condition, `StaleProbeReachable` a run that
  meets it, and `RunTakesNone` the listings that cannot cause it: those that remove no member being probed.
- Discovery is said never to drop a configured member. It does drop one of two that turn out to be the same
  server: exactly the one earlier in endpoint order (`SeedDisplaced`). Some configured member always remains
  (`RunKeepsSeed`).
- Dropping a row stream is meant to leave the connection at a request boundary or broken. A frame that does
  not decode, or of the wrong kind, stops the drain with the rest of the reply unread and the connection not
  marked broken (`DropExact`).
- A fold can leave a listed name without a member of that name (`FoldNames`, `NameTakenOver`).
- Dropping a role keeps edges to it, which come alive when the name is used again; `DropThenReuse` says
  exactly who gains what.
- `ResultSets` and the pipelining wrapper share tag 8, so a plain `ResultSets` reply is never read as
  untagged (`PlainResponseUntagged`).
- `push_padded` says it prints as the formatter would; for negative numbers that need padding it prints one
  character more (`PrintedAsFormatted`). No timestamp field is negative.

## Model

| member | source | states |
|---|---|---|
| `Decimals.Normalized` | crates/skaidb-types/src/value.rs:85-98 | the trailing-zero loop computes the normal form `Normal` |
| `Decimals.NormalSound` | crates/skaidb-types/src/value.rs:80-98 | a normal form is the same number, has no trailing zero above scale 0, and zero becomes scale 0 |
| `Decimals.NormalCanonical` | crates/skaidb-types/src/value.rs:80-98 | two decimals have the same normal form if and only if they are the same number |
| `Decimals.CmpDecimalExact` | crates/skaidb-types/src/value.rs:496-520 | for every i128 mantissa and u32 scale, overflow arms included, the comparison is that of the two rationals |
| `Decimals.CmpI64DecimalExact` | crates/skaidb-types/src/value.rs:479-494 | the integer comparison is that of i·10^scale with the mantissa, also where 10^scale overflows |
| `Decimals.ExactBytesCanonical` | crates/skaidb-types/src/value.rs:100-108 | the 20 exact bytes of two decimals are equal if and only if the decimals are the same number |
| `Keys.I64Order` | crates/skaidb-types/src/value.rs:609-613 | sign-flipped big-endian bytes order as the signed integers |
| `Keys.F64Order` | crates/skaidb-types/src/value.rs:615-624 | the float transform orders bit patterns as totalOrder (section 5.10 of IEEE 754-2008) |
| `Keys.EscapedOrder` | crates/skaidb-types/src/value.rs:626-639 | escaped, terminated byte strings order as the strings, then as whatever follows |
| `Keys.TypeOrder` | crates/skaidb-types/src/value.rs:430-450 | a key starts with its type's rank, literally 0 to 10 from null to document, so a value of a lower type sorts below whatever follows either key |
| `Keys.KeyOrder` | crates/skaidb-types/src/value.rs:301-352 | for any decimal coding that sorts, Clean values and any suffixes: byte order of the keys is structural order, then order of the suffixes |
| `KeyTheorems.EncodeKeyOrder` | crates/skaidb-types/src/value.rs:294-352 | `encode_key` preserves order: comparing keys compares the literal type rank, then value, componentwise, shorter first |
| `KeyTheorems.KeyPrefixFree` | crates/skaidb-types/src/value.rs:288-352 | keys of Clean values with suffixes are equal if and only if the values are key-equal and the suffixes equal |
| `KeyTheorems.ArrayKeyOrder` | crates/skaidb-types/src/value.rs:409-428 | top-level arrays whose components are NULL or Clean order componentwise, and have equal keys if and only if key-equal |
| `KeyTheorems.NestedNullCollides` | crates/skaidb-types/src/value.rs:250-266 | a NULL in an array nested in an array gives the key of a different, longer array |
| `KeyTheorems.NullUnderDocumentCollides` | crates/skaidb-types/src/value.rs:330-352 | a NULL ending an array in a document's last field gives the key of a different array |
| `KeyTheorems.EmptyNameCollides` | crates/skaidb-types/src/value.rs:330-352 | a document with an empty name gives, inside an array, the key of a different array |
| `KeyTheorems.ZeroNameExtends` | crates/skaidb-types/src/value.rs:330-352 | a document whose first name begins with U+0000 has the empty document's key as a proper prefix |
| `KeyTheorems.CleanExactly` | crates/skaidb-types/src/value.rs:288-352 | without documents: a value is Clean if and only if no other value's key is a proper prefix of its key |
| `KeyTheorems.ExactKeyEquality` | crates/skaidb-types/src/value.rs:363-393 | exact keys of Clean values are equal if and only if the values are equal up to decimal normalisation at every depth, floats by bits |
| `KeyTheorems.KeyWithoutDecimals` | crates/skaidb-types/src/value.rs:394-407 | a value that contains no decimal has one key under every decimal coding, so its sort key is its exact key |
| `KeyTheorems.NumericKeyRoundTrip` | crates/skaidb-types/src/value.rs:451-474 | the numeric key decoder returns exact ints, timestamps and float bits, a decimal's projection, and nothing for other types |
| `KeyWriter.EncodeBytes` | crates/skaidb-types/src/value.rs:626-639 | the escaping loop appends exactly `Escaped` |
| `KeyWriter.EncodeInto` | crates/skaidb-types/src/value.rs:301-352 | the recursive writer appends exactly the sort key to any buffer |
| `KeyWriter.EncodeExactInto` | crates/skaidb-types/src/value.rs:370-393 | the exact writer appends exactly the exact key, falling back to the sort key for everything but decimals and containers |
| `KeyWriter.EncodeArrayKeyInto` | crates/skaidb-types/src/value.rs:411-420 | the borrowed-item writer appends what encoding the whole array would |
| `KeyWriter.SkipEscapedBytes` | crates/skaidb-types/src/value.rs:593-607 | the scan finds the length of the escaped string at the front, or none |
| `KeyWriter.EscapedLengthOf` | crates/skaidb-types/src/value.rs:593-607 | on an escaped string followed by anything the scan stops just past its terminator |
| `KeyWriter.EncodedArrayPrefix` | crates/skaidb-types/src/value.rs:568-590 | the component loop computes `PrefixOf` |
| `KeyWriter.PlacementPrefix` | crates/skaidb-types/src/value.rs:553-590 | on any array's key: Some if and only if n > 0 and the first n components exist and are non-null scalars, and then exactly tag plus their encodings |
| `KeyWriter.PrefixInjective` | crates/skaidb-types/src/value.rs:553-590 | two such prefixes are equal if and only if the component keys are pairwise equal |
| `Codec.RoundTrip` | crates/skaidb-types/src/codec.rs:395-447 | every well-formed value whose lengths fit u32 is read back, whatever bytes follow |
| `Codec.DecodeEncode` | crates/skaidb-types/src/codec.rs:35-75 | `decode(encode(v)) == v` |
| `Codec.ParseWellFormed` | crates/skaidb-types/src/codec.rs:604-660 | whatever decodes is well formed: strings UTF-8, documents strictly sorted by name |
| `Codec.SkipAgrees` | crates/skaidb-types/src/codec.rs:665-703 | whenever decoding succeeds, skipping succeeds and stops at the same byte |
| `Codec.ItemsNeedBytes` | crates/skaidb-types/src/codec.rs:604-660 | the array count guard rejects only what the guard-free loop rejects: n elements need n bytes |
| `Codec.FieldsNeedBytes` | crates/skaidb-types/src/codec.rs:604-660 | the document count guard likewise: n fields need 5n bytes |
| `Utf8Text.Utf8Exact` | crates/skaidb-types/src/codec.rs:501-508 | text is accepted if and only if it is the encoding of some code points other than surrogates |
| `CodecLocal.ParseLocal` | crates/skaidb-types/src/codec.rs:604-660 | decoding depends only on the bytes it consumes: they decode alone and before any other suffix |
| `Values.InsertSorted` | crates/skaidb-types/src/value.rs:146-158 | inserting into a document keeps its names strictly sorted |
| `Values.InsertLookup` | crates/skaidb-types/src/value.rs:146-158 | after an insert a lookup finds the new value under that name and the old ones elsewhere |
| `CodecCursor.EncodeValue` | crates/skaidb-types/src/codec.rs:395-447 | the recursive writer appends exactly `Encode(v)` |
| `CodecCursor.Cursor.TakeBytes` | crates/skaidb-types/src/codec.rs:467-478 | reads exactly n bytes and advances past them, or fails without enough |
| `CodecCursor.Cursor.NextStr` | crates/skaidb-types/src/codec.rs:496-510 | a length-prefixed string is read and rejected unless UTF-8 |
| `CodecCursor.Cursor.DecodeValue` | crates/skaidb-types/src/codec.rs:604-660 | the guarded cursor decoder equals the guard-free parse, result and position |
| `CodecCursor.Cursor.SkipValue` | crates/skaidb-types/src/codec.rs:665-703 | the guarded cursor skip equals the skip-parse, position included |
| `CodecCursor.DecodeAll` | crates/skaidb-types/src/codec.rs:62-75 | `Value::decode`: one value and no trailing byte |
| `DocSelect.SelectLookup` | crates/skaidb-types/src/codec.rs:88-160 | under every name a selection holds the document's value as the policy treats it, or nothing |
| `DocSelect.SelectSorted` | crates/skaidb-types/src/codec.rs:88-160 | a selection stays strictly sorted, so those lookups determine it |
| `DocSelect.SelectInsert` | crates/skaidb-types/src/codec.rs:88-160 | selecting fields commutes with inserting them one by one, repeated names included |
| `DocSelect.PickedDistinct` | crates/skaidb-types/src/codec.rs:257-287 | with distinct wanted names each slot is the document's value of that name |
| `DocReads.ProjectedMeans` | crates/skaidb-types/src/codec.rs:76-160 | the projection name by name: wanted and reserved fields as they are, of the others at most a NULL when the literal names marker is wanted |
| `DocReads.ProbedMeans` | crates/skaidb-types/src/codec.rs:162-207 | the probe name by name: a probed field says only whether it is NULL |
| `DocSelect.PickedRepeats` | crates/skaidb-types/src/codec.rs:270-287 | a repeated wanted name has its value in its first slot only; a repeated group column is repeated |
| `DocSelect.HasReservedMeans` | crates/skaidb-types/src/codec.rs:270-287 | the reserved flag is true if and only if some field name begins with U+0001 |
| `DocReads.DecodeDocumentProjected` | crates/skaidb-types/src/codec.rs:88-160 | on every accepted document, in both branches, the projected decode is the document restricted to wanted and reserved names, the others NULL when the names marker is wanted; whatever it accepts is one whole value |
| `DocScans.DecodeDocumentProbed` | crates/skaidb-types/src/codec.rs:169-207 | the probed decode is the same restriction with probed fields abstracted to NULL or true |
| `DocScans.ScanFields` | crates/skaidb-types/src/codec.rs:244-287 | the scan returns the wanted values and whether the document holds a reserved name |
| `GroupKeys.TranscodeKeyValue` | crates/skaidb-types/src/codec.rs:543-602 | stored bytes become key bytes exactly as decode-then-encode would, and it fails exactly when decoding fails |
| `GroupKeys.ScanGroupRow` | crates/skaidb-types/src/codec.rs:302-364 | appends exactly the array key of the decoded key columns, missing ones NULL, repeated ones allowed, with the wanted values and the reserved flag; it only ever appends, and bytes that are not one whole value are refused with nothing appended |
| `GroupKeys.GroupKeyShared` | crates/skaidb-types/src/value.rs:411-420 | two rows share a group key if and only if every key column is key-equal, when each is NULL or Clean |
| `ReservedGate.DocHasReserved` | crates/skaidb-types/src/codec.rs:374-392 | on any bytes: the first deciding name met, no if the walk gets to the end, an error otherwise; on every accepted document that is `GateSays` of the stored names |
| `ReservedGate.GateExact` | crates/skaidb-types/src/codec.rs:366-392 | the early stop is right if and only if no reserved name is stored after a name that stops it |
| `ReservedGate.GateAgrees` | crates/skaidb-types/src/codec.rs:366-392 | the gate agrees with the decoded document under exactly that condition on the stored names |
| `ReservedGate.GateCanonical` | crates/skaidb-types/src/codec.rs:366-392 | on every encoded document the gate is right, because names are stored sorted |
| `ReservedGate.GateMissesUnsorted` | crates/skaidb-types/src/codec.rs:366-392 | an accepted, unsorted encoding whose reserved field the gate misses |
| `Rbac.SatisfiesExact` | crates/skaidb-auth/src/rbac.rs:360-373 | a role's own grants authorise exactly what one of them is worth: the same privilege or Admin, on the object or globally |
| `Rbac.RoleStore.HasPrivilege` | crates/skaidb-auth/src/rbac.rs:266-271 | true if and only if some role reachable along inherits edges through existing roles holds a satisfying grant, for every graph, cyclic or dangling |
| `Rbac.RoleStore.Check` | crates/skaidb-auth/src/rbac.rs:346-379 | the search with its shared visited set: a refusal leaves a set closed under edges in which no role satisfies |
| `Rbac.SearchExact` | crates/skaidb-auth/src/rbac.rs:346-379 | a set grown from a role by closing it under edges is exactly the roles reachable from it |
| `Rbac.RoleStore.Columns` | crates/skaidb-auth/src/rbac.rs:288-318 | exactly the union of the column grants of the reachable roles |
| `Rbac.RoleStore.MqttFilters` | crates/skaidb-auth/src/rbac.rs:274-286 | exactly the union of the topic filters of the reachable roles, sorted without repeats |
| `Rbac.RoleStore.CollectColumns` | crates/skaidb-auth/src/rbac.rs:295-318 | adds the column grants of exactly the roles newly visited |
| `Rbac.RoleStore.CollectTopics` | crates/skaidb-auth/src/rbac.rs:321-344 | adds the topic filters of exactly the roles newly visited |
| `Rbac.RoleStore.CreateRole` | crates/skaidb-auth/src/rbac.rs:149-156 | an existing name is refused; a new role has no grants and no parents |
| `Rbac.RoleStore.CreateSuperuser` | crates/skaidb-auth/src/rbac.rs:159-164 | the role ends with global admin, keeps what it had, and gives everything to exactly the roles that reach it |
| `Rbac.RoleStore.DropRole` | crates/skaidb-auth/src/rbac.rs:167-172 | removes that role only and authorises nothing new |
| `Rbac.RoleStore.GrantPrivilege` | crates/skaidb-auth/src/rbac.rs:179-192 | a missing role is refused; otherwise a role gains exactly what the grant is worth, if and only if it reaches the holder |
| `Rbac.RoleStore.Revoke` | crates/skaidb-auth/src/rbac.rs:194-209 | exactly that grant is removed: what stays authorised is what some other grant reachable is worth |
| `Rbac.GrantAuthorises` | crates/skaidb-auth/src/rbac.rs:179-192 | a grant authorises exactly what it is worth, for exactly the roles that reach its holder |
| `Rbac.RevokeAuthorises` | crates/skaidb-auth/src/rbac.rs:194-209 | after a revocation exactly the other grants count |
| `Rbac.GrantedNames` | crates/skaidb-auth/src/rbac.rs:295-344 | column and topic grants are the grants on exactly that column of that table and that filter |
| `Rbac.GrantAddsNames` | crates/skaidb-auth/src/rbac.rs:179-192 | one more grant adds exactly its own column or topic |
| `Rbac.RevokeExact` | crates/skaidb-auth/src/rbac.rs:194-209 | every other grant of the role is kept |
| `Rbac.RoleStore.GrantRole` | crates/skaidb-auth/src/rbac.rs:211-222 | both must exist; a role then has exactly what it had, and what the parent had if it reached the member |
| `Rbac.EdgeAuthorises` | crates/skaidb-auth/src/rbac.rs:211-222 | one more edge authorises exactly what its end has, for exactly the roles that reach its start |
| `Rbac.RoleStore.RevokeRole` | crates/skaidb-auth/src/rbac.rs:224-229 | exactly that edge is removed |
| `Rbac.AuthorisedMonotone` | crates/skaidb-auth/src/rbac.rs:346-379 | more grants or edges never take an authorisation away |
| `Rbac.CreateChangesNothing` | crates/skaidb-auth/src/rbac.rs:149-156 | creating a role changes no authorisation |
| `Rbac.NewRoleAuthorises` | crates/skaidb-auth/src/rbac.rs:149-156 | giving an unused name to a role without parents authorises exactly what it grants, and exactly for roles that already reach the name |
| `Rbac.DropThenReuse` | crates/skaidb-auth/src/rbac.rs:167-172 | after a role is dropped and its name reused with a grant, a role gains exactly that grant, if and only if it reaches the dropped name |
| `Rbac.DroppedEdgesRevive` | crates/skaidb-auth/src/rbac.rs:167-172 | so every role with an edge to the dropped name gains the new grant |
| `Discovery.ApplyListing` | src/lib.rs:2782-2847 | the four passes over the member map compute `Folded` |
| `Discovery.FoldRows` | src/lib.rs:2783-2805 | rows fold to first-seen order with the last state, and the last local row names the answering member |
| `Discovery.BuildIndex` | src/lib.rs:2806-2815 | the name index built in endpoint order |
| `Discovery.FoldDistinct` | src/lib.rs:2782-2847 | after any listing no two members have the same canonical name |
| `Discovery.FoldRepresents` | src/lib.rs:2818-2837 | every listed endpoint has a member that stands for it |
| `Discovery.ListingExact` | src/lib.rs:2783-2799 | a listing holds exactly the endpoints its rows name, once each, with the state of the last row |
| `Discovery.FoldStates` | src/lib.rs:2818-2837 | a member that listed endpoints stand for ends in the state of the last of them |
| `Discovery.FoldState` | src/lib.rs:2783-2837 | with one endpoint standing for it, that is the state of that endpoint's last row |
| `Discovery.LastStateMeans` | src/lib.rs:2790-2794 | the texts resyncing and unreachable are those states, every other one is ready |
| `Discovery.FoldReady` | src/lib.rs:2790-2837 | a member last listed resyncing or unreachable is unusable, any other is listed ready |
| `Discovery.FoldErrors` | src/lib.rs:2828-2833 | listed ready again, a survivor starts with no errors; otherwise its count stays |
| `Discovery.LocalNameMeans` | src/lib.rs:2800-2804 | the answering member's name for itself is the endpoint of the last well-shaped row marked local |
| `Discovery.FoldCanonical` | src/lib.rs:2800-2837 | a survivor keeps its name, but the answering member takes the one it gives itself and a taken-over key its own |
| `Discovery.FoldUnlists` | src/lib.rs:2838-2847 | a member no row stands for survives only as a seed, marked unlisted if it is named |
| `Discovery.FoldNames` | src/lib.rs:2818-2837 | that member goes by the listed name if and only if its own key is not itself listed as an unknown endpoint |
| `Discovery.NameTakenOver` | src/lib.rs:2818-2837 | a listing after which no member goes by a listed name |
| `Discovery.FoldDropsUnlisted` | src/lib.rs:2838-2847 | a surviving discovered member is in this listing |
| `Discovery.SeedDisplaced` | src/lib.rs:2806-2847 | a listing displaces a seed if and only if another seed that goes by the same name comes later in endpoint order |
| `Discovery.FoldKeepsSeeds` | src/lib.rs:2806-2847 | every seed has an heir that is a seed before and after and is not displaced: itself unless displaced, else a later seed of its name |
| `Discovery.FoldNotEmpty` | src/lib.rs:2806-2847 | a map with a seed has a seed after any listing, so it is not empty |
| `PoolSeeds.RunKeepsSeed` | src/lib.rs:2238-2847 | over every run a pool with a seed keeps a seed, so it never runs out of members |
| `PoolSeeds.FreshNeverEmpty` | src/lib.rs:2238-2847 | hence a fresh pool always has a member, whatever listings arrive |
| `PoolSeeds.SeedStays` | src/lib.rs:2108-2110 | a seed stays a member and a seed over every run in which no later seed turns out to go by its name |
| `Discovery.FoldKeepsAccounts` | src/lib.rs:2818-2847 | survivors keep their connection count and health; everyone else starts afresh |
| `PoolMembers.BackoffExact` | src/lib.rs:2611-2617 | the n-th ejection lasts base times 2^(n-1), the factor capped at the largest u32, never over the maximum; the first lasts the base |
| `PoolMembers.NewMemberFresh` | src/lib.rs:2133-2148 | a new member is in rotation with a clean record |
| `PoolMembers.BackoffMonotone` | src/lib.rs:2611-2617 | a higher ejection count never gives a shorter backoff |
| `PoolMembers.BackoffDoubles` | src/lib.rs:2611-2617 | below the caps each repeat doubles the backoff |
| `PoolAccounts.StepInv` | src/lib.rs:2238-2778 | every critical section keeps: idle connections distinct, live, not out, not broken, at most maxsize, none once closed; counts accounted for |
| `PoolAccounts.PoolAccounting` | src/lib.rs:2238-2778 | over every run from a fresh pool, in_use is at most the connections out at a member and equal to it for every endpoint no listing ever removed; idle is bounded and clean |
| `PoolAccounts.ClosedForever` | src/lib.rs:2357-2367 | once closed, a pool stays closed and its idle set empty over every run |
| `PoolAccounts.TakeIdleOk` | src/lib.rs:2417-2449 | a take leaves the idle set clean, drops only connections that are not out and hands over one that is neither out nor idle |
| `PoolHealth.StepHealth` | src/lib.rs:2516-2696 | all an event can do to health: nothing, eject an admitted member while another is usable, or end its probe |
| `PoolHealth.StepKeepsUsable` | src/lib.rs:2516-2696 | a step other than a fold leaves no usable member if and only if it is a failed probe of the only usable one |
| `PoolHealth.RunKeepsUsable` | src/lib.rs:2516-2696 | no run of checkouts, returns, round trips, failures, ticks and probes, with probes in flight only to ejected members, leaves no member usable |
| `PoolHealth.StepTracked` | src/lib.rs:2516-2847 | every step keeps probes in flight to ejected, marked members, folds included if they remove none being probed |
| `PoolHealth.RunTakesNone` | src/lib.rs:2516-2847 | over every run, listings included, in which no listing removes a member being probed, no step but a listing takes the last usable member |
| `PoolHealth.RunTakesLast` | src/lib.rs:2516-2847 | over every run at all: only listings take the last usable member if and only if no failed probe was of the only usable one |
| `PoolHealth.EjectionFrozen` | src/lib.rs:2546-2573 | over every run in which its probe does not end and no listing removes it, an ejected member keeps its count and deadline |
| `PoolHealth.StepDeadline` | src/lib.rs:2595-2696 | a new deadline is set only by that member's round trip, failure or probe: the clock reading plus the backoff of the new count, at least the shorter of base and maximum after it and at most the maximum; the count goes up by one, or restarts after a quiet spell |
| `PoolHealth.FailedProbeLonger` | src/lib.rs:2691-2694 | a failed probe puts the member out for at least the backoff of its last ejection |
| `PoolHealth.FailuresEject` | src/lib.rs:2563-2573 | with another member usable, n failures in a row eject an admitted member if and only if they reach the threshold |
| `PoolHealth.RunBounded` | src/lib.rs:2595-2696 | over every run, folds included, no deadline is more than one longest backoff ahead of the clock |
| `PoolHealth.EjectionSafety` | src/lib.rs:2516-2696 | from a fresh pool: deadlines bounded over every run; while no listing removes a member being probed only a listing takes the last usable member; without listings some member is usable |
| `StaleProbe.StaleProbeReachable` | src/lib.rs:2666-2696 | a run from a fresh pool, through listings that drop and re-add a member being probed, whose last probe leaves no member usable |
| `PoolReturn.ReturnKept` | src/lib.rs:2303-2329 | a returned connection is kept, as the newest idle one, if and only if the pool is open, the connection sound, the member in rotation and there is room; the others are untouched |
| `PoolReturn.ReturnReused` | src/lib.rs:2417-2449 | with last in, first out, a returned connection is the next one taken, for any target it suits |
| `PoolReturn.ProbeReused` | src/lib.rs:2678-2690 | so is the connection of a probe that re-admits a ready member, if there is room |
| `PoolReturn.ReturnUndoesHandOut` | src/lib.rs:2291-2329 | handing out and taking back leaves the members as they were, and records the key |
| `PoolReturn.BrokenDropped` | src/lib.rs:2318-2322 | a connection whose transport failed is thrown away on return |
| `PoolReturn.CheckoutCycle` | src/lib.rs:2260-2329 | from a fresh pool: checked out, dialed, handed out and returned, a connection is idle and the next checkout gets it |
| `PoolTiming.TickMarks` | src/lib.rs:2646-2652 | a tick marks a member if and only if the pool is open, the member out past its deadline and no probe under way |
| `PoolTiming.NoEarlyProbe` | src/lib.rs:2595-2655 | after an ejection, over every run that neither ends its probe nor removes it, no tick before the shortest backoff has passed probes the member |
| `PoolTiming.RoundTripClears` | src/lib.rs:2516-2561 | a round trip clears the error count and ejects exactly a slow usable member that is not the last |
| `PoolTiming.RoundTripRestarts` | src/lib.rs:2536-2573 | failures before a round trip do not add to those after it |
| `PoolTiming.ProbeRestarts` | src/lib.rs:2563-2684 | nor do failures before a probe that re-admits |
| `PoolTiming.WindowEnds` | src/lib.rs:2373-2388 | without a later write, a checkout from the window's end on is not directed by the write and forgets it |
| `PoolTiming.SweepExact` | src/lib.rs:2581-2589 | a write at capacity sweeps exactly the pins that are over, below it none, and pins its key until now plus the window |
| `PoolAffinity.ReadYourWrites` | src/lib.rs:2373-2388 | after a write under a key, with no later write under it and the member present at that key's checkouts, every checkout in the window is directed at that member if usable, and an idle connection it gets is to it |
| `PoolAffinity.RunKeepsPin` | src/lib.rs:2373-2388 | a live pin survives every such run, other keys' traffic and folds included |
| `PoolAffinity.WroteKeepsPin` | src/lib.rs:2581-2589 | the capacity sweep and other keys' writes never lose a live pin |
| `PoolAffinity.PickForgets` | src/lib.rs:2373-2388 | a checkout forgets a pin if and only if it is its own key's and the member is gone or the window over |
| `PoolChoice.TakeIdleSplits` | src/lib.rs:2417-2449 | idle splits into the pick, the dropped and the kept, and the kept stay in order |
| `PoolChoice.TakeIdleFirst` | src/lib.rs:2417-2449 | the pick is the first usable match in scan order; none is picked only if none matches |
| `PoolChoice.TakeIdleDropsUnusable` | src/lib.rs:2417-2449 | only connections to unusable members are dropped |
| `PoolChoice.TakeIdleSweeps` | src/lib.rs:2417-2449 | when nothing is picked every connection to an unusable member is dropped |
| `PoolChoice.PickTargets` | src/lib.rs:2389-2412 | without a deciding pin the random policy names no member, the others a usable one if and only if there is one |
| `PoolChoice.TurnsInOrder` | src/lib.rs:2392-2400 | from any counter value, turn i of a run with a steady usable set goes to the i-th next member cyclically, whatever happens between turns |
| `PoolChoice.FreshTurns` | src/lib.rs:2399-2402 | a fresh pool's turns start with the first usable member |
| `PoolChoice.RoundRobinFair` | src/lib.rs:2392-2400 | any n consecutive turns with n usable members go to n different members |
| `DialOrder.Shuffle` | src/lib.rs:2891-2896 | the in-place loop computes `Shuffled` of the draws |
| `DialOrder.ShuffledPermutes` | src/lib.rs:2891-2896 | a shuffle is a permutation |
| `DialOrder.ShuffledReaches` | src/lib.rs:2891-2896 | every permutation comes out of some draws |
| `DialOrder.SortRest` | src/lib.rs:2470-2471 | members out of rotation: not ejected first, then by deadline, ties in endpoint order |
| `DialOrder.Order` | src/lib.rs:2456-2486 | every member once: target, usable ones, resyncing or unreachable ones, ejected ones by deadline, with the excluded one moved last |
| `DialOrder.DialOrderMeans` | src/lib.rs:2451-2486 | in a dial order the target is first, members in rotation before the others, ejected ones last and by deadline |
| `DialOrder.ExcludedLast` | src/lib.rs:2477-2485 | with a member excluded it is last and once, and nobody is missing |
| `Layouts.FrameAccepted` | crates/skaidb-proto/src/frame.rs:72-88 | a frame is read if and only if its length is there, at most 64 MiB, and so many bytes follow |
| `Layouts.MessagesRefused` | crates/skaidb-proto/src/message.rs:350-551 | opcodes, consistencies and tags not in use are refused |
| `Layouts.ValuesRefused` | crates/skaidb-types/src/codec.rs:604-660 | value tags not in use are refused |
| `Balancer.Balancer.constructor` | src/lib.rs:2133-2148 | a fresh pool of admitted seeds, the initial state of every run |
| `Balancer.Balancer.PickPinned` | src/lib.rs:2374-2387 | the affinity part of the pick |
| `Balancer.Balancer.Pick` | src/lib.rs:2373-2412 | new state and target are those of `Pick`, for any random draws and latencies |
| `Balancer.Balancer.TakeIdle` | src/lib.rs:2417-2449 | the scan, the short path and the rebuild compute `TakeIdle` |
| `Balancer.Balancer.Choose` | src/lib.rs:2260-2276 | the first critical section of a checkout; without an idle connection the order is a dial order for the target |
| `Balancer.Balancer.HandOut` | src/lib.rs:2291-2297 | the connection counts against its member and is out |
| `Balancer.Balancer.Checkin` | src/lib.rs:2303-2329 | the count goes down if it was out; kept only when open, sound, usable and with room |
| `Balancer.Balancer.DropConn` | src/lib.rs:2238-2247 | a connection dropped while out stops counting |
| `Balancer.Balancer.Close` | src/lib.rs:2357-2367 | closed, and the idle connections gone |
| `Balancer.Balancer.Reattribute` | src/lib.rs:2765-2778 | a re-dial mid-checkout moves one count |
| `Balancer.Balancer.Eject` | src/lib.rs:2595-2609 | not the last usable member; the count restarts after a quiet spell |
| `Balancer.Balancer.RoundTrip` | src/lib.rs:2516-2561 | errors cleared; ejection only of a member still in rotation |
| `Balancer.Balancer.Failed` | src/lib.rs:2563-2573 | one more error; ejection at the threshold unless already out |
| `Balancer.Balancer.Wrote` | src/lib.rs:2581-2589 | sweep at capacity, then the new pin |
| `Balancer.Balancer.Tick` | src/lib.rs:2637-2655 | exactly the due members are marked and returned |
| `Balancer.Balancer.Probed` | src/lib.rs:2666-2696 | success re-admits, and the connection joins idle if there is room; failure or a closed pool ejects again |
| `Balancer.Balancer.FoldListing` | src/lib.rs:2749-2751 | only the members change, to `Folded` |
| `Balancer.Scan` | src/lib.rs:2417-2434 | the scan finds the first hit and exactly the stale indices met before it |
| `Balancer.Rebuild` | src/lib.rs:2438-2449 | one pass splits the list into picked, dropped and kept |
| `Balancer.AnyOtherUsable` | src/lib.rs:2596-2598 | true if and only if some other member is usable |
| `Balancer.MarkDue` | src/lib.rs:2646-2652 | the loop marks exactly the members that are due |
| `Layouts.ByteOrder` | crates/skaidb-proto/src/frame.rs:20-38 | big-endian is highest byte first, little-endian lowest |
| `Layouts.KeyWords` | crates/skaidb-types/src/value.rs:609-624 | integer, timestamp and float keys as literal tags and shifted big-endian words |
| `Layouts.KeyText` | crates/skaidb-types/src/value.rs:626-639 | string keys in literal bytes, zero escaped and two zeros at the end |
| `Layouts.KeyContainers` | crates/skaidb-types/src/value.rs:335-350 | container keys as their parts between a literal tag and a zero byte |
| `Layouts.ScalarBytes` | crates/skaidb-types/src/codec.rs:395-430 | stored scalars as literal tags and little-endian two's complement |
| `Layouts.ContainerBytes` | crates/skaidb-types/src/codec.rs:430-447 | stored containers as a literal tag, a 4-byte count and the parts |
| `Layouts.RequestHeads` | crates/skaidb-proto/src/message.rs:133-170 | every request starts with its literal opcode and consistency |
| `Layouts.RequestBodies` | crates/skaidb-proto/src/message.rs:262-347 | the rest of each request, field by field |
| `Layouts.ResponseBytes` | crates/skaidb-proto/src/message.rs:453-501 | every response starts with its literal tag, then its fields in order |
| `Layouts.FrameBytes` | crates/skaidb-proto/src/frame.rs:9-38 | a frame is its length in 4 bytes, highest first, and its payload; the limit is 64 MiB |
| `Frame.FramesReadBack` | crates/skaidb-proto/src/frame.rs:20-88 | any sequence of frames reads back as the same payloads, leaving what follows |
| `Frame.FrameExact` | crates/skaidb-proto/src/frame.rs:72-88 | whatever reads as a frame is the frame of its payload |
| `Frame.WriteAllVectored` | crates/skaidb-proto/src/frame.rs:41-58 | whatever each call accepts, the wire gets head then body once, in order; a failed write leaves a prefix |
| `Frame.WriteFrame` | crates/skaidb-proto/src/frame.rs:20-38 | the frame goes out in both size branches; a payload over the limit is refused and nothing written |
| `Frame.BeginFrame` | crates/skaidb-proto/src/frame.rs:94-97 | a cleared buffer with room for the length |
| `Frame.FinishFrame` | crates/skaidb-proto/src/frame.rs:101-113 | the buffer built in place goes out as the frame of its payload; it fails only over the limit or on a failed write, which leaves a prefix |
| `Frame.ReadFrameInto` | crates/skaidb-proto/src/frame.rs:72-88 | the buffer ends as exactly the payload whatever it held before, and the source just past it; short or oversized input fails |
| `MessageTheorems.RequestRoundTrip` | crates/skaidb-proto/src/message.rs:262-441 | every request whose counts and lengths fit decodes to itself, whatever follows |
| `MessageTheorems.ResponseRoundTrip` | crates/skaidb-proto/src/message.rs:453-551 | every response whose counts and lengths fit decodes to itself |
| `MessageTheorems.ClientRequestRoundTrip` | crates/skaidb-proto/src/message.rs:180-203 | a tagged request comes back with its id, a plain one untagged |
| `MessageTheorems.TaggedResponseRoundTrip` | crates/skaidb-proto/src/message.rs:206-223 | a tagged response comes back with its id |
| `MessageTheorems.PlainResponseUntagged` | crates/skaidb-proto/src/message.rs:171-223 | a plain response comes back untagged if and only if it is not `ResultSets`, which is refused or read as tagged with its number of sets |
| `WireLists.CountedReadsBack` | crates/skaidb-proto/src/message.rs:554-599 | a counted list whose count fits is read back when each element is |
| `MessageWriter.WriteCell` | crates/skaidb-proto/src/message.rs:564-573 | a value behind a length backfilled after it is written |
| `MessageWriter.WriteRow` | crates/skaidb-proto/src/message.rs:564-573 | a counted row of such cells |
| `MessageWriter.WriteRequest` | crates/skaidb-proto/src/message.rs:262-347 | appends exactly the request's bytes |
| `MessageWriter.WriteResponse` | crates/skaidb-proto/src/message.rs:453-501 | appends exactly the response's bytes |
| `MessageWriter.RowsChunkEncoder.constructor` | crates/skaidb-proto/src/message.rs:614-619 | an unfinished chunk with no rows |
| `MessageWriter.RowsChunkEncoder.PushRow` | crates/skaidb-proto/src/message.rs:621-624 | one more row in the unfinished chunk |
| `MessageWriter.RowsChunkEncoder.Finish` | crates/skaidb-proto/src/message.rs:627-629 | backfilling the count gives the bytes of `RowsChunk` with the rows pushed |
| `MessageWriter.WriteChunkByRow` | crates/skaidb-proto/src/message.rs:600-630 | row-by-row encoding is byte-identical to encoding the chunk |
| `MessageReader.RequestFrom` | crates/skaidb-proto/src/message.rs:350-441 | the cursor loops decode exactly as the functional reading |
| `MessageReader.ResponseFrom` | crates/skaidb-proto/src/message.rs:516-551 | the cursor loops decode exactly as the functional reading |
| `MessageReader.NextRows` | crates/skaidb-proto/src/message.rs:584-599 | the nested row loop reads exactly a counted list of counted rows |
| `RowStream.OpenWellFormed` | src/lib.rs:898-921 | the header of a well-formed reply starts a stream ready for its first row |
| `RowStream.OpenMutation` | src/lib.rs:922-929 | a mutation's answer is complete: its count and no rows |
| `RowStream.SetsDelivered` | src/lib.rs:936-952 | a multi-set reply delivers every set in order, columns and rows, without reading further |
| `RowStream.FaultKinds` | src/lib.rs:1065-1084 | which error a bad frame is: bytes giving out, an undecodable payload, the server's message, a reply out of place |
| `RowStream.FaultEnds` | src/lib.rs:1089-1104 | after any error the stream is finished, forever |
| `RowStream.StreamDelivers` | src/lib.rs:1064-1105 | on every well-formed reply, empty chunks included, call n gives row n of the concatenated chunks; then the error, if any, once; then nothing forever |
| `RowStream.DropExact` | src/lib.rs:1065-1118 | for any framed reply that ends once, well formed or not: dropped after any number of calls, the wire stands just past it if and only if every frame before its terminator is a chunk |
| `RowStream.DropAtBoundary` | src/lib.rs:1107-1118 | dropped after any number of calls, the wire stands just past the terminator |
| `RowStream.RowStream.NextFrame` | src/lib.rs:1065-1084 | one frame: a chunk, the end, a server error or an unexpected frame |
| `RowStream.RowStream.Next` | src/lib.rs:1089-1104 | the loop computes `Advance` and ends |
| `RowStream.RowStream.Drain` | src/lib.rs:1107-1118 | the loop reads frames until the end or a fault |
| `RowStream.RowStream.NextResultSet` | src/lib.rs:1053-1062 | the iteration moves to the next set of a multi-set reply, if there is one |
| `RowStream.OpenStream` | src/lib.rs:898-957 | which first frames start a stream, which end the exchange and which are refused |
| `Pipeline.NeverPanics` | src/lib.rs:667-671 | whatever the server sends, n accepted replies fill all n slots, so the final unwrap cannot fail |
| `Pipeline.PipelineExact` | src/lib.rs:644-671 | accepted if and only if n tagged replies arrive with n different ids below n, and then each reply is at its id |
| `Pipeline.AnyArrivalOrder` | src/lib.rs:644-671 | replies sent in any order come back in request order, from the bytes up |
| `Pipeline.UntaggedReply` | src/lib.rs:652-657 | a plain reply is recognised as that of a server without pipelining |
| `Pipeline.StrayReply` | src/lib.rs:658-665 | a reply whose id is out of range or already answered is reported by that id |
| `Pipeline.ServerReads` | src/lib.rs:628-643 | the bytes sent read back as the same queries, each tagged with its position |
| `Pipeline.SendAll` | src/lib.rs:628-643 | every request is written as a tagged frame, in order, under any partial writes of each; a failure leaves a prefix of the batch, and there is none if every payload fits and every call takes something |
| `Pipeline.ReadAll` | src/lib.rs:644-671 | the slot-filling loop computes `Collect` and never hits an empty slot |
| `Calendar.YearOfEraBounds` | crates/skaidb-types/src/slog.rs:80-83 | the estimated year is the one whose March-to-March span holds the day |
| `Calendar.CivilCorrect` | crates/skaidb-types/src/slog.rs:77-89 | every day number gives a valid Gregorian date whose day number it is, before 1970 too |
| `Calendar.CivilInverse` | crates/skaidb-types/src/slog.rs:77-89 | and every valid date is the date of its day number |
| `Calendar.CivilNext` | crates/skaidb-types/src/slog.rs:77-89 | day 0 is 1970-01-01 and consecutive days are consecutive dates |
| `Calendar.NextDateNext` | crates/skaidb-types/src/slog.rs:77-89 | the reference calendar's day numbers count its dates one by one |
| `Timestamp.PushPadded` | crates/skaidb-types/src/slog.rs:110-137 | both paths print the sign and the zero-padded decimal |
| `Timestamp.PushU64` | crates/skaidb-types/src/slog.rs:141-154 | the digit loop prints the decimal without leading zeros |
| `Timestamp.DigitsRead` | crates/skaidb-types/src/slog.rs:141-154 | the digits lie in 0 to 9 and read back as the number, and only zero starts with 0 |
| `Timestamp.FixedRead` | crates/skaidb-types/src/slog.rs:113-121 | fixed-width digits read back as the number when it fits |
| `Timestamp.PaddedRead` | crates/skaidb-types/src/slog.rs:122-137 | padding changes the length, not the number |
| `Timestamp.FixedPadded` | crates/skaidb-types/src/slog.rs:113-121 | fixed-width digit pushes are the zero-padded decimal for every number that fits |
| `Timestamp.PrintedAsFormatted` | crates/skaidb-types/src/slog.rs:108-137 | this is what the formatter prints if and only if the number is not negative or needs no padding |
| `Timestamp.StampShape` | crates/skaidb-types/src/slog.rs:70-106 | for every millisecond count from 1970 to the year 10000 the prefix is seven fixed-width fields, 24 characters |
| `Timestamp.StampReads` | crates/skaidb-types/src/slog.rs:70-106 | every field reads back from its place between its literal separators |
| `Timestamp.StampOrder` | crates/skaidb-types/src/slog.rs:70-106 | prefixes sort lexicographically if and only if the instants do, and are equal if and only if the instants are |
| `Timestamp.StampInjective` | crates/skaidb-types/src/slog.rs:70-106 | two such instants with the same prefix are the same instant |
| `Timestamp.LogTimestampInto` | crates/skaidb-types/src/slog.rs:70-106 | appends exactly the prefix of the millisecond count |

## Left out

- `Decimal::to_f64` and `cmp_i64_f64`: they need IEEE arithmetic. Sort keys take the projection as an arbitrary function, so nothing is claimed about its rounding.
- Latency averages and scores: the least-latency pick is any usable member and a latency ejection may happen on any round trip of a usable member, which covers what the averages decide.
- Random source: xorshift draws are arbitrary numbers; nothing is claimed about uniformity beyond every order being reachable.
- Dialling, TLS, SCRAM, GSSAPI, certificates, session replay and thread parking: only their outcomes appear, as inputs of pool steps.
- Discovery scheduling (`discovery_off`, refresh times, starting the maintainer): when a listing arrives is left open.
- The checkout retry loop: a checkout is its first step, a dial and a hand-out, and the theorems hold for any interleaving and number of them.
- Byte counts of a failed read: after a transport fault nothing is said about what the connection still holds.
- Error texts, `Display`, JSON, `get_path`, UUID text, privilege names, the grants listing, `scan_field_names` and the member snapshot: easy or formatting.
- Recursion depth and allocation sizes: not visible in the model; counts read off the wire are capped only for allocation there.
- The C interface and the C++ header: boxing and pointer checks.
- 64-bit overflow of clock and counter arithmetic: instants, counts of connections and row counts are unbounded, except where the source saturates, wraps or truncates on purpose.
- GroupKeys.ScanGroupRow: on a row that skips as one whole value but does not decode, says that earlier output is kept, not which part of a key was appended before the error.
- KeyTheorems.CleanExactly: leaves documents out, because the bytes after a document's end are read as a field name, so whether another value fits them depends on those bytes.
