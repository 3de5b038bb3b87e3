# Verified model of the core of FastAPI Best Architecture

A Dafny model of the parts of the backend whose correctness rests on graphs,
clocks, leases, caches and concurrency, with proofs over all inputs, runs and
interleavings. `dafny verify dfyconfig.toml` checks everything.

What is modelled, one module per component:

- **Strings, RelationText, JoinNesting, OuterJoin, UserJoin**:
  `select_join_serialize`, which turns the flat rows of an outer join back into
  nested records. Main theorem: nesting undoes the join. UserJoin connects it to
  the user query, whose result the user cache must equal.
- **PluginOrder, Requirements**: the two depth-first searches over plugin
  dependencies and over installed distributions, both exact.
- **BuildTree, TreeBuilders**: the two tree builders, on the heap, leave the same
  forest, and the forest holds every row it should exactly once.
- **Bits, Snowflake, NodeLease**: id packing on two's complement integers, the
  generator under an arbitrary clock, and the lease protocol for node ids.
- **Lockout**: the failure counter and the lock as two expiring keys, with a rate
  bound on failed password checks.
- **RedisKeys, Sessions**: keys as strings, deletion by prefix, and the token
  sessions over whole runs.
- **UserCache**: cached authorization snapshots against the joined tables.
- **CacheStaleness, CacheRefinement**: the two-level cache, over all
  interleavings of many nodes, and as a refinement of the uncached function in
  one process.
- **BatchQueue**: batch consumption under any schedule.
- **DataPermission**: compiling data rules into a row filter.

Code that changes fields or lists in loops is modelled by classes and methods
that are proved against specification functions; the theorems are about those
functions and about runs made of them.

Redis is a map from keys to values with expiry times, the clock is an explicit
number, UUIDs are fresh, and a signed token is its payload. Each service request
is one step, except where a property speaks of interleavings: there every Redis
command is a step of its own (NodeLease, CacheStaleness) or has its own time
(Lockout).

Where the code does less than its comments promise, the model follows the code
and the exact condition is proved:

- The multi-login switch negates the flag of the requesting user, not that of the
  user whose flag it sets, because the test meant to tell them apart compares a
  value with itself. So the switch is in vain exactly when the two flags differ
  (`Sessions.SwitchInVainIff`).
- Revoking a session, and switching off multi-login, leave the refresh tokens in
  place, so a session ended in this way can be exchanged for a new one
  (`Sessions.RevokedSessionReturnsIff`, `Sessions.EvictedSessionReturnsIff`).
- An instance that was shut down still generates ids for the node it released
  (`NodeLease.ReleasedInstanceRepeatsId`).
- With repeated names the resolver returns the first or the last listed plugin of
  a name, by whether an earlier plugin depends on the name
  (`PluginOrder.ResolvePluginOrder`).
- Purging a user's tokens by prefix also logs out users whose decimal id begins
  with the same digits (`Sessions.PurgeSparesOthers`, `Sessions.LoggedOutIff`).
- Deleting a menu, or updating a department, leaves stale cached users
  (`UserCache.DeleteMenuIsCoherentIff`, `UserCache.UpdateDeptIsCoherentIff`).
- Formatting the end of a lock loses up to a second. A lock holds to its end
  exactly when it begins on a whole second (`Lockout.LockHoldsIff`), and the
  spans of threshold + 1 failures are exactly those above the lock time less one
  second (`Lockout.GapsSpanned`).
- The staleness of cached values is bounded by the two times to live only if
  values are stored in Redis and refilled from it at once; the two delays add to
  the bound, and the sum is exact (`CacheStaleness.AgesServed`).
- Invalidating a single key while the local cache is enabled never reaches Redis
  (`CacheRefinement.KeyedInvalidationServesStale`).

Handlers that only make one update and one clear have no row below.

## Model

| member | source | states |
|---|---|---|
| OuterJoin.NestingUndoesJoin | backend/utils/serializers.py:77-388 | on the rows of an outer join over any association tables, with an acyclic relation list and one source per type, the output lists every primary object once, in order of first appearance, and every record at every depth shows exactly the objects associated with it, each once, in the order in which the rows first show them |
| OuterJoin.RecordShows | backend/utils/serializers.py:323-350 | the record of an object reached through a row shows its own columns, and under every relation exactly its associated objects in row order, recursively; a relation to one object shows the first |
| OuterJoin.ChildObjectsAreKids | backend/utils/serializers.py:256-287 | after de-duplication the index holds, for a reachable parent id, exactly the objects associated with that parent, each once, despite cross products and children shared between parents |
| OuterJoin.BucketSound | backend/utils/serializers.py:265-287 | whatever the index files under a parent id is associated with that id |
| OuterJoin.BucketComplete | backend/utils/serializers.py:265-287 | whatever is associated with a reachable parent is filed, because some row of the join combines the two |
| OuterJoin.BucketComesFrom | backend/utils/serializers.py:256-287 | the index holds at a place exactly one object for every row that combines primary object, parent and child, in row order |
| OuterJoin.ChildrenInRowOrder | backend/utils/serializers.py:159-167 | de-duplication leaves the children of a place in the order in which the rows first show them |
| OuterJoin.PlaceInJoin | backend/utils/serializers.py:269-287 | the column index finds the parent of every object in a join row, so the object is filed under its primary object and parent id |
| OuterJoin.ColumnIndexFindsColumns | backend/utils/serializers.py:202-211 | the index from types to columns, learnt from the values met, gives every column that ever holds a value, also when the first rows have gaps |
| OuterJoin.JoinRowsExist | backend/app/admin/crud/crud_user.py:351-366 | every query over finite association tables has rows that meet the conditions of the nesting theorem |
| OuterJoin.MainsInOrder | backend/utils/serializers.py:367-378 | the primary objects come out in the order of the first row in which each occurs |
| OuterJoin.MainsArePrimaries | backend/utils/serializers.py:217-232 | the distinct primary objects of the rows are exactly those of the query |
| UserJoin.SerializedUserIsJoin | backend/app/admin/crud/crud_user.py:329-376 | get_join from its relation strings: for any tables and any row order, nothing for a missing user, and otherwise one record that reads back, at every depth, as the joined record against which the user cache is proved coherent |
| UserJoin.UserQueryIsJoin | backend/app/admin/crud/crud_user.py:351-376 | the same for the strings and models of the user query; rows of the query exist for all tables |
| UserJoin.UserIsRead | backend/app/admin/crud/crud_user.py:351-376 | columns, department, roles, menus, scopes and rules of the record are those of the tables |
| UserJoin.JoinIsValid | backend/app/admin/crud/crud_user.py:351-366 | the user query over any tables with positive ids meets the conditions of the nesting theorem |
| UserJoin.UserQueryIsCovered | backend/app/admin/crud/crud_user.py:369-375 | the relations and columns of the user query satisfy the conditions of the nesting theorem, for any keyed objects |
| UserJoin.RelationshipsAreParsed | backend/app/admin/crud/crud_user.py:369-375 | the five relation strings parse to the five relations |
| RelationText.ParseFormat | backend/utils/serializers.py:126-147 | parsing a formatted relation returns source, kind, target and custom name, the models in lower case |
| RelationText.ParseIsExact | backend/utils/serializers.py:126-147 | any text, malformed or not: before the first colon and without outer white space it must have three parts between dashes, the second a kind in any letter case; the models are the outer parts in lower case |
| RelationText.ParsedHasParts | backend/utils/serializers.py:131-143 | a text that is not malformed has the three parts |
| Strings.JoinSplit | backend/utils/serializers.py:131 | splitting loses nothing and leaves no separator |
| Strings.SplitJoin | backend/utils/serializers.py:131 | splitting undoes joining |
| Strings.SplitOnce | backend/utils/serializers.py:127 | the text before the first separator, and the rest |
| Strings.StripTrims | backend/utils/serializers.py:128-129 | stripping leaves no outer white space and keeps what has none |
| Strings.StripIsCore | backend/utils/serializers.py:128-129 | only white space is removed, at the ends only |
| JoinNesting.SelectJoinSerialize | backend/utils/serializers.py:178-198 | the whole call, from the relation strings, loops and early returns included, yields the specified nested output |
| JoinNesting.ParseRelationships | backend/utils/serializers.py:118-149 | the loop over the relation strings yields the graph, the reverse map and the custom names; malformed strings change nothing |
| JoinNesting.EdgesAreDeclared | backend/utils/serializers.py:144 | the parsed graph has exactly the edges of the valid entries |
| JoinNesting.EntryIsParsed | backend/utils/serializers.py:115-116 | every valid entry is the source of its target and decides its field name: the custom one, else plural for list kinds, else singular |
| JoinNesting.CustomsAreDeclared | backend/utils/serializers.py:146-147 | custom names exist only for declared relations |
| JoinNesting.DedupeObjects | backend/utils/serializers.py:159-167 | the loop with its seen set keeps what the specification of de-duplication keeps |
| JoinNesting.DedupeKeepsEachIdOnce | backend/utils/serializers.py:159-167 | every id that occurs is kept exactly once, objects without an id are dropped, none is invented |
| JoinNesting.TargetsHaveSources | backend/utils/serializers.py:271-280 | every target of a relation has a source, so the branch that falls back on the primary object as parent is never taken |
| JoinNesting.DedupeInOrder | backend/utils/serializers.py:159-167 | the kept objects are the first ones with their ids, in their order |
| JoinNesting.SingleIsFirst | backend/utils/serializers.py:343-359 | a relation to one object shows the first object with an id that was filed for the parent, and None exactly when there is none |
| JoinNesting.IndexColumns | backend/utils/serializers.py:202-211 | the nested loop records for every type the first column in which a value of it was met |
| JoinNesting.IndexRow | backend/utils/serializers.py:265-287 | one row extends every place of the hierarchy by what its columns contribute, in column order |
| JoinNesting.BuildHierarchy | backend/utils/serializers.py:257-287 | the hierarchy holds at every place the contributions of all rows, in row order |
| JoinNesting.BuildFields | backend/utils/serializers.py:319-361 | the fields of a record: its columns, then each relation as a list or as the first item or None |
| JoinNesting.BuildField | backend/utils/serializers.py:340-346 | one relation of a record: its children as a list, or the first or None |
| JoinNesting.RecursiveBuild | backend/utils/serializers.py:323-350 | the recursion returns the specified records of the children of a parent; it terminates because the relations are acyclic |
| JoinNesting.BuildRecords | backend/utils/serializers.py:364-386 | one record for every distinct primary id, built where it first occurs |
| JoinNesting.BuildRecord | backend/utils/serializers.py:372-386 | one row more: a primary object met for the first time gets its record, others nothing |
| JoinNesting.EveryPrimaryOnce | backend/utils/serializers.py:364-386 | every primary object of the rows comes out exactly once, also objects without an id, which count by their address |
| PluginOrder.ResolvePluginOrder | backend/plugin/core.py:180-215 | succeeds if and only if the plugins selected for the names can be put in dependency order, and returns them so; all such orders hold the same plugins. For unique names: succeeds if and only if no dependency is missing and there is no cycle, and returns a permutation of the input. An error always names a missing dependency or a genuine cycle |
| PluginOrder.ListedAgrees | backend/plugin/core.py:212-213 | of plugins with the same name the search places the first listed, unless something listed earlier depends on the name: in every possible order that is the selected one |
| PluginOrder.DependencyAgrees | backend/plugin/core.py:187-207 | where a dependency leads the search to a name, every possible order holds the last listed plugin of that name, the one in plugin_map |
| PluginOrder.SettledIsSelected | backend/plugin/core.py:209-213 | what was known of a plugin when it was placed makes it the selected one of the final order, whatever was placed after it |
| PluginOrder.Resolution.Visit | backend/plugin/core.py:192-210 | a call restores the stack and places its plugin last, before it only last listed plugins that it depends on, each after its dependencies; a failure shows that no order exists; it terminates because the names off the stack get fewer |
| PluginOrder.ClosesCycle | backend/plugin/core.py:195-198 | the reported path, from the first occurrence on the stack back to itself, is a cycle of declared dependencies |
| PluginOrder.OrderIsExact | backend/plugin/core.py:187-215 | for unique names a returned order is a permutation and shows that nothing was missing or cyclic |
| PluginOrder.OrderedIsResolvable | backend/plugin/core.py:187-215 | a list in dependency order leaves neither a missing dependency nor a cycle, so failure is exact |
| PluginOrder.RanksFall | backend/plugin/core.py:200-207 | along any path of dependencies the position in such a list strictly falls |
| PluginOrder.Place | backend/plugin/core.py:209-210 | a plugin whose dependencies are placed may be appended without breaking the order |
| PluginOrder.OrderEnabledPlugins | backend/plugin/core.py:375-384 | over the enabled plugins only: succeeds if and only if they have an order; for unique names no enabled plugin then depends on a disabled or unknown one |
| PluginOrder.EnabledInOrder | backend/plugin/core.py:375-384 | filtering keeps the listed order, on which the choice among repeated names depends |
| PluginOrder.LastListedIsFound | backend/plugin/core.py:187 | plugin_map holds the last listed plugin of a name |
| Requirements.RequirementsInstalled | backend/plugin/requirements.py:25-71 | True if and only if every requirement reachable through applicable markers and requested extras is installed at an allowed version and has readable metadata, and if and only if some set of states certifies this; False and errors are justified by a reachable witness |
| Requirements.SatisfiedIffCertified | backend/plugin/requirements.py:31-69 | an independent definition without paths: all is satisfied if and only if some set of states holds what the roots want and, with every state, what its dependencies want, markers being evaluated under the empty extra without requested extras and under each of them otherwise |
| Requirements.CertifiedHolds | backend/plugin/requirements.py:40-69 | under a certificate everything reachable that applies is fulfilled and readable |
| Requirements.Search.RequirementSatisfied | backend/plugin/requirements.py:40-69 | True settles a requirement up to the states still open, so answering True for a visited state is exact on cyclic graphs; it terminates because the unvisited states get fewer |
| Requirements.ClosedCovers | backend/plugin/requirements.py:56-69 | when no state is open, everything on every path from the requirements is settled |
| TreeBuilders.TraversalToTree | backend/utils/build_tree.py:25-50 | one in-place pass, in any row order, links every node with exactly its children in row order; the heap then represents the forest of the top nodes, which is the recursive builder's forest when every parent is present |
| TreeBuilders.AddNode | backend/utils/build_tree.py:35-48 | one more row extends the lists and the top level by exactly that row |
| TreeBuilders.AppendChild | backend/utils/build_tree.py:42-45 | the parent's list is made when absent and gains the node at its end; no other list changes |
| TreeBuilders.NodeDict | backend/utils/build_tree.py:33 | the dictionary finds every node by its id and nothing else |
| TreeBuilders.RecursiveToTree | backend/utils/build_tree.py:53-68 | returns the nodes with the given parent in row order, links everything below them and changes no other node |
| TreeBuilders.VisitRow | backend/utils/build_tree.py:62-67 | one more row extends the result by that row if it matches, and its subtree is linked |
| TreeBuilders.BuildChild | backend/utils/build_tree.py:63-67 | the recursive step: the subtree of a matching node, then its own list unless empty |
| TreeBuilders.RecursiveForest | backend/utils/build_tree.py:53-68 | from null, or an id on no cycle, the recursion terminates and the heap represents the forest below it |
| TreeBuilders.LinkedRepresents | backend/utils/build_tree.py:25-68 | a heap in which everything below a root is linked represents the forest as a value |
| BuildTree.TopForestIsNullForest | backend/utils/build_tree.py:25-68 | both builders yield equal forests, with the same sibling order, when every non-null parent is present, also beside nodes on parent cycles |
| BuildTree.TopForestCounts | backend/utils/build_tree.py:35-50 | the one-pass forest holds every row whose parent chain ends at null or at an absent parent exactly once, and no other |
| BuildTree.NullForestCounts | backend/utils/build_tree.py:53-68 | the recursive forest from null holds every row whose parent chain reaches null exactly once, and no other |
| BuildTree.ForestCounts | backend/utils/build_tree.py:62-68 | the forest below a chain holds exactly the rows below it, each once |
| BuildTree.KidsAreKids | backend/utils/build_tree.py:53-68 | the children of a node are the rows that name it as parent, in row order |
| BuildTree.TopsAreTop | backend/utils/build_tree.py:35-50 | the top nodes are the rows without a present parent, in row order |
| BuildTree.ChainIsUnique | backend/utils/build_tree.py:63 | with unique ids, a row has at most one chain of parents from a root that lies on no cycle |
| BuildTree.CyclesUnwind | backend/utils/build_tree.py:53-68 | below a root on a cycle there are chains of every length, so there the recursion has no end |
| Snowflake.IdsIncrease | backend/utils/snowflake.py:180-213 | in every run of calls of one instance, for every sequence of clock readings, every later id is strictly greater |
| Snowflake.GenerateAdvances | backend/utils/snowflake.py:185-205 | an id comes from a strictly later (timestamp, sequence); a refusal happens exactly on a rollback of more than 10 s and changes nothing |
| Snowflake.CallAnswersAtOnce | backend/utils/snowflake.py:185-213 | when the clock has moved on a call answers at once with sequence 0, and within the last millisecond with the next sequence as long as it is below 4096; a refusal tells how far the clock is behind |
| Snowflake.CallWaits | backend/utils/snowflake.py:172-205 | a call waits if and only if the clock lags by at most 10 s or the millisecond is used up; it then takes the first later reading and sequence 0, and does not return exactly if there is none |
| Snowflake.SnowflakeGenerator.Generate | backend/utils/snowflake.py:180-213 | the method with its branches and sequence wrap updates the state and answers as specified |
| Snowflake.SnowflakeGenerator.TillNextMs | backend/utils/snowflake.py:172-178 | the loop stops at the first reading after the last timestamp |
| Snowflake.NextAfter | backend/utils/snowflake.py:172-178 | a reading is found exactly when some reading exceeds the last timestamp |
| Snowflake.ParsePack | backend/utils/snowflake.py:208-226 | parsing a packed id returns the same four fields, for any integer timestamp |
| Snowflake.PackParse | backend/utils/snowflake.py:208-226 | packing a parsed id returns the id, for any integer |
| Snowflake.PackIsInjective | backend/utils/snowflake.py:208-213 | different fields give different ids |
| Snowflake.PackIsSum | backend/utils/snowflake.py:22-37 | the shifted fields do not overlap, so the bitwise or is their sum |
| Snowflake.PackIsMonotone | backend/utils/snowflake.py:208-213 | for one node, ids are ordered as (timestamp, sequence) |
| Snowflake.FitsIn63Bits | backend/utils/snowflake.py:22-37 | an id is a non-negative 63-bit number if and only if the timestamp is within 2^41 ms from the epoch |
| Bits.OrOfDisjoint | backend/utils/snowflake.py:209-212 | the or of a shifted number and one below the shift is their sum, for negative numbers too |
| Bits.AndOfMask | backend/utils/snowflake.py:224-226 | the and with n one bits is the remainder, for negative numbers too |
| NodeLease.LeasesAreExclusive | backend/utils/snowflake.py:53-107 | in every state of every run of scans, registrations, heartbeats, releases, crashes, calls of generate and time, if heartbeats are timely, a node has at most one holder, whose key is live and its own, whatever the clocks read |
| NodeLease.TimelyOwned | backend/utils/snowflake.py:74-94 | in every state of such a run every holder owns the key of its node, which outlives its next heartbeat |
| NodeLease.IdsNeverCoincide | backend/utils/snowflake.py:144-148 | in timely runs in which only holders generate, and a new holder starts later than the ids issued before for its node, all ids ever issued by any instances differ |
| NodeLease.StepKeepsInvariant | backend/utils/snowflake.py:53-107 | every step of such a run keeps: holders own keys that outlive their heartbeat, generators fit their node, and nothing issued for a node is later than its holder's last id |
| NodeLease.RunKeepsInvariant | backend/utils/snowflake.py:53-107 | the invariant holds in every state of every such run |
| NodeLease.NodesAreReused | backend/utils/snowflake.py:74-107 | a released node, and the node of a crashed holder once its key has expired, goes to the next candidate |
| NodeLease.CrashedNodeStaysTaken | backend/utils/snowflake.py:74-94 | until its key has expired the node of a crashed holder is not given to another |
| NodeLease.BeatRenews | backend/utils/snowflake.py:84-94 | a heartbeat gives the holder's live key a whole time to live again and changes nothing else |
| NodeLease.BeatsHoldOn | backend/utils/snowflake.py:84-94 | a holder that beats within the time to live keeps its node for ever: timely runs of any length |
| NodeLease.NodesInOrder | backend/utils/snowflake.py:66-72 | the 1024 nodes are tried datacenter by datacenter and worker by worker |
| NodeLease.ExpiredHolderIsDoubled | backend/utils/snowflake.py:74-77 | a run from the empty system in which a second instance tries the node after any wait without a heartbeat: both hold it if and only if the wait has reached the time to live |
| NodeLease.LateClockRepeatsId | backend/utils/snowflake.py:185-213 | a timely run with a proper handover in which the new holder reads the old one's last millisecond repeats its id: the later start is necessary |
| NodeLease.ReleasedInstanceRepeatsId | backend/utils/snowflake.py:163-213 | a timely run in which the new holder starts later and the old instance, which answers after shutdown too, repeats the new one's id: that only holders generate is necessary |
| NodeLease.SnowflakeNodeManager.AcquireNodeId | backend/utils/snowflake.py:53-72 | alone, the first node in order that no live key occupies is registered, an error exactly when all 1024 are occupied; it realises a scan step and try steps of the system |
| NodeLease.SnowflakeNodeManager.Register | backend/utils/snowflake.py:74-77 | SET NX EX: registers exactly when no live key is there |
| NodeLease.SnowflakeNodeManager.StartHeartbeat | backend/utils/snowflake.py:79-82 | after an acquisition the manager realises the system in which the instance holds the node |
| NodeLease.SnowflakeNodeManager.Heartbeat | backend/utils/snowflake.py:84-94 | a manager that realises a system realises its Beat step |
| NodeLease.SnowflakeNodeManager.Release | backend/utils/snowflake.py:96-107 | a manager that realises a system realises its Release step |
| NodeLease.TriesEnd | backend/utils/snowflake.py:66-72 | trying the nodes in order ends with the first that is available, or with none |
| NodeLease.Instance.Init | backend/utils/snowflake.py:143-148 | acquisition and start of the heartbeat take an idle instance through steps of the system to holding a node, or to none |
| NodeLease.Instance.Generate | backend/utils/snowflake.py:180-213 | before init it is refused; afterwards, also after shutdown, it realises the Generate step with its outcome |
| NodeLease.Instance.Shutdown | backend/utils/snowflake.py:163-166 | realises the Release step |
| Lockout.FailuresAreSpaced | backend/app/admin/service/user_password_history_service.py:31-73 | in every sequential run, any threshold + 1 failed password checks without a success between them span strictly more than the lock time less one second |
| Lockout.GapsSpanned | backend/app/admin/service/user_password_history_service.py:31-73 | the bound is exact: for every configuration and every gap, some sequential run has threshold + 1 failures without a success that far apart if and only if the gap exceeds the lock time less one second |
| Lockout.LockHoldsIff | backend/app/admin/service/user_password_history_service.py:66-72 | a lock refuses every check until its time is over if and only if it begins on a whole second, or setting it took longer than the lock time |
| Lockout.FailuresInWindow | backend/app/admin/service/user_password_history_service.py:31-73 | for a lock time L of at least 2 s, failures within a window w number at most threshold * (w / (L - 1) + 1) |
| Lockout.LockTimeIsTruncated | backend/app/admin/service/user_password_history_service.py:66-72 | for every configuration some run spans less than the lock time |
| Lockout.RunFits | backend/app/admin/service/user_password_history_service.py:20-73 | after every run the failures that the counter does not count are more than the lock time less one second before those it counts, and a full counter comes with a lock that outlives it |
| Lockout.AttemptIsJudged | backend/app/admin/service/auth_service.py:47-63 | for any configuration, threshold 0 included, which attempt gets which verdict, each if and only if, and what it leaves stored: verified exactly if the account is active, no live lock ends after the clock reading and the password is right and unexpired; a disabled account is refused and changes nothing |
| Lockout.AttemptKeepsFit | backend/app/admin/service/auth_service.py:51-61 | one attempt, with its commands at separate times, keeps that relation and the spacing |
| Lockout.UncountedAreLongAgo | backend/app/admin/service/user_password_history_service.py:57-59 | failures that the counter no longer counts are more than the lock time away |
| Lockout.PasswordSecurity.CheckStatus | backend/app/admin/service/user_password_history_service.py:28-41 | refuses disabled users, and while the stored end of the lock is in the future, with the minutes rounded up; otherwise forgets lock and counter |
| Lockout.PasswordSecurity.HandleLoginFailure | backend/app/admin/service/user_password_history_service.py:54-73 | counts unless the threshold is 0, and locks when the threshold is reached |
| Lockout.PasswordSecurity.HandleLoginSuccess | backend/app/admin/service/user_password_history_service.py:111-112 | forgets lock and counter |
| Lockout.PasswordSecurity.UserVerify | backend/app/admin/service/auth_service.py:47-63 | the order of lookup, status and lock check, password comparison, expiry check and success; its verdict and the keys it leaves are those of AttemptIsJudged |
| RedisKeys.PurgeReaches | backend/core/conf.py:99-102 | the prefix of a user, which ends in no colon, reaches exactly the keys of the same family of users whose decimal id extends the given one |
| RedisKeys.OwnKeys | backend/app/admin/service/auth_service.py:221 | with the colon the prefix reaches the user's own keys only |
| RedisKeys.SessionKeyIsInjective | backend/common/security/jwt.py:114-118 | a key determines its family, user and session |
| RedisKeys.KeysAreWritten | backend/core/conf.py:99-127 | the keys begin with the configured prefixes, followed by the decimal id and the session |
| RedisKeys.UserKeysApart | backend/core/conf.py:110-127 | purging cached users never touches a session key or a lock, nor the other way round |
| RedisKeys.RedisCli.DeletePrefix | backend/database/redis.py:65-86 | exactly the keys with the prefix and not excluded disappear |
| RedisKeys.RedisCli.DeleteScanned | backend/database/redis.py:75-86 | the same for every scan order, with keys met more than once, and every batch size |
| RedisKeys.RedisCli.GetPrefix | backend/database/redis.py:88-96 | exactly the keys with the prefix |
| Sessions.AcceptedUntilEnded | backend/common/security/jwt.py:94-203 | the life of a token, over whole runs: once accepted, an access or refresh token is accepted in exactly the later states before its expiry in which no request that ends its session has happened; Ends lists these requests |
| Sessions.AcceptedOnceIssued | backend/common/security/jwt.py:94-191 | the birth of a token: a request makes a token of an unused session accepted if and only if it gives it out, for a day or for a week |
| Sessions.StoredAfter | backend/common/security/jwt.py:94-203 | each request removes exactly the stored sessions that it ends and leaves every other one as it was: a login ends no session of a user with multi-login |
| Sessions.StoredLater | backend/common/security/jwt.py:94-203 | over a run, what is stored for a session stays until a request ends it, and then stays away |
| Sessions.LogoutEndsSession | backend/app/admin/service/auth_service.py:254-277 | after a logout with an unexpired token the access token of the session is accepted in no later state, nor with the cookie the refresh token; without the cookie the refresh token, and in any case the tokens of every other session, are accepted as before |
| Sessions.UsersAfter | backend/app/admin/service/user_service.py:105-188 | a request adds, deletes, enables or switches exactly the user it names |
| Sessions.SingleSession | backend/common/security/jwt.py:111-118 | in every state of every run of logins, refreshes, logouts, flag changes, password changes, deletions and expiry, two accepted access tokens of a user without multi-login are the same token |
| Sessions.RefreshTokensWorkOnce | backend/common/security/jwt.py:176-184 | a refresh token that was exchanged is never accepted again in any later state |
| Sessions.PurgedTokensStayDead | backend/app/admin/service/user_service.py:191-213 | after a password change or deletion no token issued earlier to the user is accepted in any later state |
| Sessions.PurgeSparesOthers | backend/app/admin/service/user_service.py:210-211 | a purge keeps another user's session if and only if that user's decimal id does not extend the purged one |
| Sessions.LoggedOutIff | backend/app/admin/service/user_service.py:288-289 | some run logs out a session of another user by a password change if and only if the other decimal id extends that of the user |
| Sessions.TwelveLosesToOne | backend/app/admin/service/user_service.py:288-289 | for instance user 12 can be logged out by user 1 changing the password, and cannot by user 2 |
| Sessions.SwitchInVainIff | backend/app/admin/service/user_service.py:166-168 | for any two users and flags, some run in which one switches the other's flag leaves it as it was if and only if the two flags differ, and then every such run does |
| Sessions.StepKeepsInvariant | backend/common/security/jwt.py:94-203 | every request keeps: at most one access key for every user without multi-login, and every key belongs to a session and a user that were given out |
| Sessions.RunKeepsInvariant | backend/common/security/jwt.py:94-203 | the invariant holds in every state of every run |
| Sessions.CreateAccessKeeps | backend/common/security/jwt.py:111-118 | a new session adds no key to another user and leaves one for a user without multi-login |
| Sessions.ChangeMultiLoginKeeps | backend/app/admin/service/user_service.py:162-183 | the switch keeps the invariant: turning the flag off leaves at most one access key, that of the requester's session; refresh keys are not touched |
| Sessions.RefreshTokensOutlive | backend/common/security/jwt.py:194-203 | revoking a session, or switching off multi-login, leaves exactly the same refresh tokens accepted |
| Sessions.RevokedSessionReturnsIff | backend/app/admin/service/auth_service.py:211-239 | a refresh token of a revoked session is refused, with the same error, exactly when it would have been before: the session can be exchanged again |
| Sessions.EvictedSessionReturnsIff | backend/app/admin/service/user_service.py:162-183 | a session evicted by switching off multi-login can be exchanged again if and only if its refresh token is stored and unexpired, its user is enabled, and the requester's session is not another live one of that user |
| Sessions.RevokedSessionReturns | backend/common/security/jwt.py:194-203 | for every user, a run in which the refresh token of a revoked session buys an accepted access token |
| Sessions.GoneForever | backend/common/security/jwt.py:104-118 | a key that was deleted under a used session never comes back |
| Sessions.Refusal | backend/app/admin/service/auth_service.py:215-225 | refresh is refused if and only if one of the checks fails, with the error of the first one that fails |
| Sessions.SessionService.CreateAccessToken | backend/common/security/jwt.py:94-128 | purges first unless multi-login, then stores token and extra information with their time to live |
| Sessions.SessionService.CreateRefreshToken | backend/common/security/jwt.py:131-155 | the same for the refresh token of a session |
| Sessions.SessionService.CreateNewToken | backend/common/security/jwt.py:158-191 | accepts exactly the stored token, deletes the old pair and stores a new one |
| Sessions.SessionService.RevokeToken | backend/common/security/jwt.py:194-203 | access and extra key are deleted: no access token of that session is accepted afterwards, while its refresh token still is |
| Sessions.SessionService.Logout | backend/app/admin/service/auth_service.py:254-277 | performs the logout of LogoutEndsSession: nothing for an expired token, otherwise access and extra key are deleted, and with the cookie the refresh key |
| Sessions.SessionService.SwaggerLogin | backend/app/admin/service/auth_service.py:65-81 | the returned access token is accepted |
| Sessions.SessionService.Login | backend/app/admin/service/auth_service.py:113-132 | both returned tokens are accepted |
| Sessions.SessionService.RefreshToken | backend/app/admin/service/auth_service.py:211-239 | exchanges the token exactly when all checks pass |
| Sessions.SessionService.JwtAuthentication | backend/common/security/jwt.py:278-287 | accepts exactly unexpired tokens that are stored under their user and session |
| Sessions.SessionService.UpdateMultiLogin | backend/app/admin/service/user_service.py:162-183 | stores the negated requester's flag, and purges the access keys of all other sessions when it is false |
| UserCache.RecordShowsTables | backend/app/admin/crud/crud_user.py:329-376 | the joined record shows the row of the user and, at every place, exactly the existing rows that the associations lead to: a rule under a scope under a role if and only if the user has the role, the role the scope and the scope the rule, and likewise menus, scopes, roles and the department |
| UserCache.AssociationsAfter | backend/app/admin/crud/crud_role.py:136-178 | a request replaces exactly the list it gives: the old associations of the role, scope or user are gone, all others are as before |
| UserCache.UserRowsAfter | backend/app/admin/crud/crud_user.py:170-196 | user and department rows after a request: the one it writes or deletes, all others as before; a refused request changes nothing |
| UserCache.RoleRowsAfter | backend/app/admin/service/role_service.py:115-190 | the same for roles |
| UserCache.MenuRowsAfter | backend/app/admin/service/menu_service.py:93-134 | the same for menus |
| UserCache.ScopeRowsAfter | backend/app/admin/service/data_scope_service.py:93-143 | the same for data scopes |
| UserCache.RuleRowsAfter | backend/app/admin/service/data_rule_service.py:124-153 | the same for data rules |
| UserCache.NewMenusAreShown | backend/app/admin/crud/crud_role.py:136-156 | after a menu assignment every user with the role is shown exactly the menus of the list under it |
| UserCache.NewScopesAreShown | backend/app/admin/crud/crud_role.py:158-178 | the same for scopes |
| UserCache.NewRulesAreShown | backend/app/admin/crud/crud_data_scope.py:118-138 | after a rule assignment every user who reaches the scope is shown exactly the rules of the list under it |
| UserCache.NewRolesAreShown | backend/app/admin/crud/crud_user.py:170-196 | after a user update the user is shown exactly the roles of the list |
| UserCache.RuleLossShows | backend/app/admin/service/data_rule_service.py:140-153 | deleting rules changes a record if and only if its user has one of them |
| UserCache.ScopeLossShows | backend/app/admin/service/data_scope_service.py:130-143 | deleting scopes changes a record if and only if its user has one of them |
| UserCache.RoleLossShows | backend/app/admin/service/role_service.py:179-190 | deleting roles takes exactly those roles from every record |
| UserCache.EntriesAfter | backend/app/admin/utils/cache.py:14-95 | after a request exactly the entries of the users it touches are gone, the others are as they were, and only loading a user adds one |
| UserCache.JoinsFind | backend/app/admin/utils/cache.py:33-95 | the four joins find exactly the users with a path to one of the ids |
| UserCache.RefusedIff | backend/app/admin/service/role_service.py:125-163 | which requests are refused: assignments with an unknown id, menus with children, and updates by the name, tree and user checks |
| UserCache.CacheNeverStale | backend/common/security/jwt.py:247-268 | no run of the covered requests, loads and expiries leaves a cached user that differs from the joined record |
| UserCache.StepKeepsCoherent | backend/app/admin/utils/cache.py:33-95 | every covered request, its clear included, keeps every cached user equal to the joined record |
| UserCache.RoleStepSpares | backend/app/admin/service/role_service.py:115-190 | a role update, menu or scope reassignment or deletion changes the record of nobody whom the role join misses |
| UserCache.ScopeStepSpares | backend/app/admin/service/data_scope_service.py:93-143 | a scope update, rule reassignment or deletion changes the record of nobody whom the scope join misses |
| UserCache.RuleStepSpares | backend/app/admin/service/data_rule_service.py:124-153 | a rule update or deletion changes the record of nobody whom the rule join misses |
| UserCache.MenuStepSpares | backend/app/admin/service/menu_service.py:93-116 | a menu update changes the record of nobody whom the menu join misses |
| UserCache.UserStepSpares | backend/app/admin/service/user_service.py:105-127 | a change of one user changes no other user's record |
| UserCache.DeleteMenuIsCoherentIff | backend/app/admin/service/menu_service.py:119-134 | deleting a menu clears nothing, as its association rows are gone before the join: the cache stays correct if and only if no cached user has the menu |
| UserCache.DeletedMenuIsServed | backend/app/admin/service/menu_service.py:119-134 | for any tables: loading a user who has a menu and deleting the menu leaves a stale entry |
| UserCache.MenusCanBeServedAfterDeletion | backend/app/admin/service/menu_service.py:119-134 | such users exist |
| UserCache.MenuLossShows | backend/app/admin/crud/crud_menu.py:98-109 | deleting a menu changes a user's record if and only if the user has the menu through an existing role |
| UserCache.UpdateDeptIsCoherentIff | backend/app/admin/service/dept_service.py:75-96 | updating a department clears nothing: the cache stays correct if and only if the row is unchanged or no cached user belongs to it |
| UserCache.OldDeptIsServed | backend/app/admin/service/dept_service.py:75-96 | for any tables: loading a user and changing the row of the department leaves a stale entry |
| UserCache.DeptsCanBeServedAfterUpdate | backend/app/admin/service/dept_service.py:75-96 | such users exist, and the update is accepted |
| UserCache.RoleJoinMisses | backend/app/admin/utils/cache.py:33-37 | a user whom the role join misses has none of the roles |
| UserCache.MenuJoinMisses | backend/app/admin/utils/cache.py:47-56 | a user whom the menu join misses has none of the menus |
| UserCache.ScopeJoinMisses | backend/app/admin/utils/cache.py:66-75 | a user whom the scope join misses has none of the scopes |
| UserCache.RuleJoinMisses | backend/app/admin/utils/cache.py:85-95 | a user whom the rule join misses has none of the rules |
| UserCache.AuthorizationServices.ClearByRoleId | backend/app/admin/utils/cache.py:25-37 | deletes the entries of exactly the users of the roles |
| UserCache.AuthorizationServices.ClearByMenuId | backend/app/admin/utils/cache.py:39-56 | deletes the entries of exactly the users of the menus |
| UserCache.AuthorizationServices.ClearByDataScopeId | backend/app/admin/utils/cache.py:58-75 | deletes the entries of exactly the users of the scopes |
| UserCache.AuthorizationServices.ClearByDataRuleId | backend/app/admin/utils/cache.py:77-95 | deletes the entries of exactly the users of the rules |
| UserCache.AuthorizationServices.UpdateRoleMenu | backend/app/admin/crud/crud_role.py:136-156 | deletes and reinserts the association rows, then clears |
| UserCache.AuthorizationServices.UpdateRoleScope | backend/app/admin/crud/crud_role.py:158-178 | deletes and reinserts the association rows, then clears |
| UserCache.AuthorizationServices.DeleteRoles | backend/app/admin/service/role_service.py:179-190 | deletes the roles and keeps their association rows, by which the clear finds the users |
| UserCache.AuthorizationServices.UpdateDataScopeRule | backend/app/admin/crud/crud_data_scope.py:118-138 | deletes and reinserts the association rows, then clears |
| UserCache.AuthorizationServices.UpdateUser | backend/app/admin/crud/crud_user.py:170-196 | the row is written, the role rows are deleted and reinserted, then the user is cleared |
| UserCache.AuthorizationServices.UpdateMenu | backend/app/admin/service/menu_service.py:93-116 | refused as TreeRefusal says; otherwise the row is written, then the clear by the menu join |
| UserCache.AuthorizationServices.DeleteMenu | backend/app/admin/service/menu_service.py:119-134 | refused for a menu with children; otherwise the rows go first, and the clear that follows leaves the cache as it was |
| UserCache.AuthorizationServices.DeleteMenuRows | backend/app/admin/crud/crud_menu.py:98-109 | the association rows and the menu go |
| UserCache.NameRefusal | backend/app/admin/service/role_service.py:125-129 | an update is accepted exactly for a row that exists and whose name is unchanged or free |
| UserCache.NamesStayUnique | backend/app/admin/service/role_service.py:125-129 | among unique names, an update is accepted if and only if the names stay unique |
| UserCache.TreeRefusal | backend/app/admin/service/menu_service.py:103-113 | an update is accepted exactly for a row that exists, when the title is unchanged or free, and the parent is none or another row that exists |
| UserCache.UserIsRefusedIff | backend/app/admin/service/user_service.py:114-124 | an update is accepted exactly for a user that exists, when the name is unchanged or free, the roles exist, and the department is unchanged, none or exists |
| UserCache.StatusRefusal | backend/common/security/jwt.py:220-244 | a user is served exactly when user and department are on, the department is not deleted, and the user has no roles or some role that is on |
| UserCache.LockedUserIsRefused | backend/common/security/jwt.py:220-233 | a user whose status is missing, empty or 0 is refused as locked, and nobody else |
| UserCache.AuthorizationServices.UpdateDept | backend/app/admin/service/dept_service.py:75-96 | refused as TreeRefusal says; otherwise the row is written and nothing is cleared |
| UserCache.AuthorizationServices.DeleteUser | backend/app/admin/service/user_service.py:294-309 | deletes the user with the role rows and clears by prefix |
| UserCache.AuthorizationServices.GetJwtUser | backend/common/security/jwt.py:247-268 | answers the cached entry, or loads and checks the joined record and caches it |
| CacheStaleness.ServedValuesAreRecent | backend/common/cache/decorator.py:126-163 | in every interleaving of readers on any number of nodes with evictions, invalidations and lost messages, a served value was returned by a real call less than both times to live and both delays ago: from the return to the SET, and from the answer of Redis to the local refill |
| CacheStaleness.AgesServed | backend/common/cache/decorator.py:126-163 | the ages, since the return of the call, at which values are served are exactly those from 0 up to the sum of the four times |
| CacheStaleness.EveryAgeIsServed | backend/core/conf.py:74-75 | the bound cannot be improved: for every smaller age some run serves it |
| CacheStaleness.StepKeepsBounded | backend/common/cache/decorator.py:132-139 | every step keeps the bounds on stored entries: refilling the local cache never renews the Redis entry |
| CacheStaleness.RunKeepsBounded | backend/common/cache/decorator.py:132-139 | the bounds hold in every state of every run |
| CacheStaleness.LossesAreMisses | backend/common/cache/decorator.py:126-161 | dropped entries, failing commands and results that cannot be cached are not served: the reader goes on to Redis and to the function |
| CacheRefinement.ReadsAreCurrent | backend/common/cache/decorator.py:123-163 | in one process, for any run whose invalidations succeed and cover what is written, and in which calls with the same key return the same, every read answers what a direct call with its own arguments would return, or that value after the JSON round trip |
| CacheRefinement.CachingIsTransparent | backend/common/cache/decorator.py:123-163 | where the round trip is exact, every read answers exactly what the direct call would return |
| CacheRefinement.CallsAreTransparent | backend/common/cache/decorator.py:123-163 | for one decorated function that depends only on the argument, field or built text that its decorator names, with an exact round trip: every call answers as the direct call with its own arguments |
| CacheRefinement.ReadKeepsCoherent | backend/common/cache/decorator.py:125-163 | reads, failing or not, leave in both caches only encodings of present results |
| CacheRefinement.WriteKeepsCoherent | backend/common/cache/decorator.py:192-231 | a write with its successful invalidation leaves no entry for a changed result |
| CacheRefinement.StepKeepsSound | backend/common/cache/decorator.py:123-231 | every step, losses and messages included, keeps coherence |
| CacheRefinement.RunKeepsCoherent | backend/common/cache/decorator.py:123-231 | coherence holds in every state of every run |
| CacheRefinement.SecondReadIsCached | backend/common/cache/decorator.py:131-160 | once a value was read and stored in Redis, the next read does not call the function |
| CacheRefinement.FilledUntil | backend/common/cache/decorator.py:125-158 | a value lives exactly as long as configured: a later read calls the function again if and only if the local entry is off or expired and the Redis entry has expired, which without a time to live it never does |
| CacheRefinement.KeyOfParameter | backend/common/cache/decorator.py:29-50 | the whole law of keys from a parameter or, after the first dot, from a field of one: the name, a colon and the text of the argument or field, or which of the three errors |
| CacheRefinement.KeyIsRendered | backend/common/cache/decorator.py:29-55 | a key is the name, a colon and a text if and only if the call renders this text, and the bare name if and only if the decorator has no key |
| CacheRefinement.KeysExtendTheName | backend/common/cache/decorator.py:21-55 | keys begin with the name, and two calls under one name have equal keys if and only if they render the same text, or both none |
| CacheRefinement.InvalidationReachesRedisIff | backend/common/cache/decorator.py:208-219 | an invalidation removes the Redis entry of its key if and only if Redis answers and it is by prefix or the local cache is off |
| CacheRefinement.InvalidationSpares | backend/common/cache/decorator.py:191-219 | an invalidation removes exactly its key, or the keys that begin with the name, from the local cache, and from Redis if it succeeds |
| CacheRefinement.KeyedInvalidationServesStale | backend/common/cache/pubsub.py:16 | after invalidating a single key with the local cache on, which lacks an argument, the next read still answers the old value |
| CacheRefinement.LocalCacheManager.Set | backend/common/cache/local.py:23-25 | stores the entry with its expiry; a full cache gives up at most one other entry |
| CacheRefinement.LocalCacheManager.DeletePrefix | backend/common/cache/local.py:39-53 | exactly the keys with the prefix and not excluded disappear |
| CacheRefinement.LocalCacheManager.HandleMessage | backend/common/cache/pubsub.py:51-56 | a message deletes its key, or everything with its prefix |
| CacheRefinement.CacheDecorators.Cached | backend/common/cache/decorator.py:122-163 | local cache, then Redis with a refill, then the function, whose result is stored unless it is None or cannot be encoded; failures of Redis are tolerated |
| CacheRefinement.CacheDecorators.CacheInvalidate | backend/common/cache/decorator.py:191-231 | local cache, publication, Redis; reports an error when something failed and atomic is set |
| BatchQueue.NothingLostOrReordered | backend/common/queue.py:28-48 | at any point of any schedule, everything put is, in order, the handled batches, the batch in hand and the queue |
| BatchQueue.BatchesFit | backend/common/queue.py:73-85 | batches are never empty nor larger than max_items, and task_done has been called once for every handled item |
| BatchQueue.StepKeeps | backend/common/queue.py:31-46 | every event keeps that total, an arrival extends it |
| BatchQueue.RoundsDrain | backend/common/queue.py:28-85 | progress: after enough rounds without arrivals the queue is empty and its items have been handled in full batches, the last one perhaps excepted |
| BatchQueue.RoundHandles | backend/common/queue.py:28-85 | one round of waiting and handling handles the first items of the queue, as many as fit into a batch |
| BatchQueue.ResumesCollect | backend/common/queue.py:31-35 | a collector that is resumed takes one item each time, in order, until the batch is full |
| BatchQueue.CancelStops | backend/common/queue.py:73-85 | cancellation ends the consumer; a batch that is being handled is still marked done |
| BatchQueue.StoppedStays | backend/common/queue.py:73-85 | after that only the queue grows |
| BatchQueue.BatchDequeue | backend/common/queue.py:18-48 | the collector ends exactly when the batch is full, the wait ends or the task is cancelled, and holds what it took |
| BatchQueue.BatchConsume | backend/common/queue.py:73-85 | the consumer, its queue and its calls of task_done follow the state machine on every schedule |
| DataPermission.FilterDataPermission | backend/common/security/permission.py:57-181 | the filter is true on exactly the rows the user may see, in SQL's three-valued logic, for every order in which sets are iterated |
| DataPermission.OrderAndRepetitionDoNotMatter | backend/common/security/permission.py:79-90 | permuting or repeating roles, scopes and rules changes no row's visibility |
| DataPermission.CombineMeans | backend/common/security/permission.py:175-181 | the combined filter is true on a row that meets all of a non-empty AND list or one of the OR list, and on every row when both are empty |
| DataPermission.CombinedIsMaySee | backend/common/security/permission.py:113-181 | for filtered users with some rule, that is what they may see |
| DataPermission.ListMeans | backend/common/security/permission.py:113-172 | a list of tests stands for exactly the conditions that apply under its operator |
| DataPermission.CollectRules | backend/common/security/permission.py:80-86 | exactly the rules granted by enabled scopes of enabled roles |
| DataPermission.RuleConditions | backend/common/security/permission.py:114-164 | a rule yields one condition, with its cast operands, for every target model that it names and that has its column, unless the column is excluded |
| DataPermission.ListedValuesAreOperands | backend/common/security/permission.py:159-164 | for the membership expressions every listed text becomes one operand, which stands for the text without the white space around it |
| DataPermission.ComparedValueIsOperand | backend/common/security/permission.py:144-158 | for the comparisons the whole text is the one operand: the value of a template variable, what the column type makes of the text, or the text itself |
| DataPermission.RuleReaches | backend/common/security/permission.py:110-131 | a rule tests a target model if and only if it names it or all, and its column exists there and is not excluded |
| DataPermission.TwoRulesFilter | backend/common/security/permission.py:166-181 | a user with two comparisons sees the rows on which both hold if both have the operator AND, else those on which one holds |
| DataPermission.WhoIsFiltered | backend/common/security/permission.py:66-90 | superusers and users with an enabled role that does not filter see all; others nothing without an enabled rule, and all when none of their rules tests a target |
| DataPermission.DisabledRoleAddsNothing | backend/common/security/permission.py:71-86 | a disabled role neither grants nor lifts anything |
| DataPermission.DisabledScopeAddsNothing | backend/common/security/permission.py:80-86 | a disabled scope grants nothing |
| DataPermission.CompileRules | backend/common/security/permission.py:110-172 | both lists hold exactly the conditions of the rules with their operator |
| DataPermission.AllTrue | backend/common/security/permission.py:177 | an and is true if and only if every part is |
| DataPermission.AnyTrue | backend/common/security/permission.py:179-181 | an or is true if and only if some part is |

## Left out

- JoinNesting.SelectJoinSerialize: the flat mode without relations is only named, and records are maps whether the original returns dicts or namedtuples (a namedtuple raises on clashing field names). It requires an acyclic relation list; on a cyclic one the original recurses as far as the data lead.
- JoinNesting.ParseRelationships: lower-casing changes ASCII letters only.
- OuterJoin.NestingUndoesJoin: ids are positive, as the nesting relies on ids being truthy.
- UserJoin.SerializedUserIsJoin: ids are positive, no column has the name of a relation, and the last login time is not one of the columns.
- Requirements: markers and version specifiers are arbitrary predicates, and reading the requirements file is done already.
- TreeBuilders.TraversalToTree: requires unique ids, for which alone the trees agree. Comparing node dicts by value is then comparing nodes.
- TreeBuilders.RecursiveToTree: requires unique ids and a root on no cycle; below a root on a cycle the original does not end, see BuildTree.CyclesUnwind.
- TreeBuilders: sorting, the choice of builder and the vben variants of the tree are not modelled.
- NodeLease.Instance.Init: node ids fixed by configuration bypass the leases and are not modelled.
- NodeLease.IdsNeverCoincide: assumes timely heartbeats, that an instance issues nothing after its shutdown or crash, and that a new holder's first id is later than all ids issued for its node before; ExpiredHolderIsDoubled, ReleasedInstanceRepeatsId and LateClockRepeatsId show that each is necessary.
- Snowflake: the clock is the list of its readings; a call that has not ended when they are used up is waiting.
- Lockout: the settings stay fixed during a run, and whether the password has expired is an input.
- Lockout.ToStr: the original formats and parses a local time without offset; the model assumes a time zone without clock changes.
- RedisKeys: prefixes hold no glob characters and a scan sees a stable set of keys, though in any order and with repetitions.
- Sessions: login through mobile or OAuth2, captchas, cookies, login logs and the administration of online sessions; a login is a step once its password check has succeeded. The cached user, purged in the same requests, is the subject of UserCache.
- Sessions.SessionService.PurgeAfterPasswordChange: the checks of the old and the new password before it are not modelled.
- UserCache: inserting new rows under fresh ids, and changes made by other services. Lists of ids are sets, and an update gives the whole new row. Each request with its clear is one step, so a load between the two is not modelled.
- CacheRefinement: a write changes results only under its invalidation key; concurrent requests are the subject of CacheStaleness.
- CacheRefinement.CachingIsTransparent: assumes that calls with the same key return the same. CallsAreTransparent derives this for one decorated function; for several it also needs that their keys do not meet, which their names must see to.
- CacheRefinement.WriteKeepsCoherent: covers single-key invalidation only where it succeeds, that is with the local cache disabled.
- CacheRefinement.LocalCacheManager.HandleMessage: the reconnecting loop around it is not modelled; in CacheStaleness a message may be handled at any time or never.
- CacheStaleness: coherence between nodes at any instant does not hold and is not claimed; only the age of served values is bounded.
- BatchQueue.BatchConsume: requires max_items to be positive, since otherwise the original spins without ever waiting.
- BatchQueue.BatchDequeue: the timeout is an event of the schedule, not a duration.
- DataPermission.RuleConditions: which texts a column type accepts, and how values compare, are inputs; a condition is a three-valued test of a row.
- HTTP, WebSocket, task queue, migrations, command line, cryptography, pagination, translation and the plain create-read-update-delete classes.
- Metrics and log output.
