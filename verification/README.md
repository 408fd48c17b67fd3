# Verification of the CQL driver's algorithms

A Dafny model of the algorithmic parts of the JavaScript CQL driver, with proofs that they do what their
callers rely on. `dafny verify dfyconfig.toml` checks everything. Code that works step by step is modelled
step by step (classes with fields, arrays filled in place, loops over offsets); each such method is proved
equal to a function or a state transition, and the laws are proved about those.

**The query cache of the mapper.** `RadixTree.dfy` is the mutable radix tree: nodes on the heap that are cut,
extended and filled in place, proved to be a finite map from key sequences to items. `CacheIndex.dfy` follows
whole runs of requests and compares them with numbering the distinct keys in order of first use. `ShapeKeys.dfy`
has the key sequences of document shapes and says when they are injective; `CacheSharing.dfy` puts both
together. `QueryText.dfy` builds the query texts and parameter getters, `QueryMeaning.dfy` reads them
independently, and `QueryAlignment.dfy` proves when the i-th placeholder is bound by the i-th value;
`QueryStatements.dfy` reads the texts clause by clause, for everything else they say.
`CachedQueries.dfy` joins all of these: what a request is answered with, in any run, is compared with the
query that would be generated for it.

**The token ring.** `TokenRange.dfy` and `TokenRing.dfy` have ranges on the ring, their splitting and the
binary search; `ReplicaPlacement.dfy` has the two placement strategies with their loops and early exits, and
`PlacementLaws.dfy` what they promise, `PlacementRepeats.dfy` which clusters can have a host chosen twice, and
`PlacementCounts.dfy` in which ones a datacenter can miss its number of hosts; `PlacementOrder.dfy` says
exactly which hosts are chosen where none is shared. `ClusterMetadata.dfy` builds the ring from hosts and
answers look-ups, and `ReplicaTables.dfy` says what they find, in terms of the hosts.

**The wire formats.** `Bytes.dfy`, `Varint.dfy`, `VIntCoding.dfy` and `Duration.dfy` are the numbers of
sections 6.23 of the CQL binary protocol v4 and 3 of v5. `Framing.dfy` is how encoded parts are laid out one
after another, `Codec.dfy` the encoding and decoding of every type (sections 6 and 7 of v4), `CodecLoops.dfy`
the loops that compute it, `CodecRoundTrip.dfy` the inverse laws and `CodecAccepts.dfy` the exact set of
values that can be encoded, of whatever class, with their sizes. `CodecLayout.dfy` spells the bytes out, and
`VectorLengths.dfy` shows that no vector's buffer can be shortened or extended. `RoutingKey.dfy` is the
composite routing key.

**Type names.** `TypeParams.dfy` is the splitting of parameter lists, `TypeNames.dfy` the parser and the
printer, `TypeNameLaws.dfy` their inverse law, also for whole names with `frozen<...>`, and the names under
which user-defined types are found.

**Concurrent execution and debouncing.** `StreamExecutor.dfy`, `ArrayExecutor.dfy` and `EventDebouncer.dfy`
model the callbacks as atomic steps on an explicit state, with the object's methods proved to take those
steps. The laws hold for every sequence of enabled steps; `ArrayLaws.dfy` and `DebouncerBatches.dfy` state
them of the events alone.

**Query plans.** `HostLists.dfy`, `QueryPlan.dfy` and `TokenAware.dfy`: shuffling and reordering in place,
over a fixed snapshot of the hosts.

## Properties that do not hold

For each of these the exact condition is proved.

- The keys of SELECT and INSERT requests are injective exactly for property names that no part of a key can be
  taken for (`ShapeKeys.SelectKeyNeedsNames`, `InsertKeyNeedsNames`, if and only if; a pair of shapes for every bad name).
- The keys of DELETE requests are not injective: conditions follow the keys or columns without a separator
  (`ShapeKeys.RemoveKeyCollides`, if and only if the shape is ambiguous).
- INSERT keys do not hold the operators of values, so a cached getter may be another document's
  (`CachedQueries.InsertCacheIsTransparent`, if and only if).
- `length` of the tree misses keys that fill a joining node (`CacheIndex.LengthCountsKeys`, if and only if).
- INSERT, UPDATE and DELETE statements do not do what their documents ask for operators on key columns and inserted
  values, for missing columns or keys, and for `IF EXISTS` with conditions (`QueryAlignment.InsertAligned`,
  `UpdateAligned`, `DeleteAligned`, if and only if). A single operator is dropped: `q.gt(5)` on a key column is
  compared with equality. Combined operators also put the getter out of step with the text (`InsertInStep`,
  `UpdateInStep`, `DeleteInStep`, if and only if; `CombinedKeyMisaligns`). Operators on key columns and inserted
  values are not refused, and neither is an UPDATE that sets no column of a table with static columns
  (lib/mapping/object-selector.js:266-278). Callers refuse the rest: `IF EXISTS` with conditions in
  lib/mapping/mapping-handler.js:355-359 and 450-454, and missing keys in lib/mapping/object-selector.js:156-342.
- Rings with repeated tokens do not always partition the token space (`TokenRing.PartitionExactly`, if and only if).
- Skipped hosts are shared between datacenters and can be skipped with each of their tokens, so a host can be placed
  twice (`PlacementRepeats.RepeatsWithOneToken`, `RepeatsWithTokens`, if and only if), and a datacenter can get fewer
  or more of its own hosts than wanted (`PlacementCounts.CountsWithOneToken`, `CountsWithTokens`, if and only if).
- With a host without a rack, the skipped hosts of its datacenter are never taken, so that fewer hosts than wanted can
  be chosen (`PlacementOrder.ShortExactly`, if and only if).
- Values with `undefined`, empty lists or sets, or tuples and objects that do not match their types do not come
  back as they were (`CodecRoundTrip.DecodeInvertsEncode`, if and only if).
- Values of other classes than the type's are not always refused (`CodecAccepts.EncodeTold`, if and only if, and
  `ClassesNotChecked`).
- Only the first doubled quote of a quoted type name becomes one quote (`TypeNameLaws.QuotedNamesFound`, if and only if
  the name holds at most one).
- A printed vector type is not parsed when its elements' type name has a comma or a user-defined type
  (`TypeNameLaws.ParseInvertsPrint`, if and only if); user-defined types are found under some names only
  (`TypeNameLaws.NamesFound`, `FrozenNamesFound`, if and only if).

The branch of `parseTypeName` for the name `duration` (lib/encoder.js:1753-1755) is never reached, because
`dataTypes` has a code of that name (lib/types/index.js:115); the model follows the code.

## Model
| member | source | states |
|---|---|---|
| RadixTree.Tree.GetOrCreate | lib/mapping/tree.js:40-106 | On the heap tree one request is one step of a finite map: the item stored under the key is returned if there is one; otherwise the handler is called exactly once and its item is stored; every other binding is unchanged |
| RadixTree.Tree.Descend | lib/mapping/tree.js:44-91 | The walk stops at the longest prefix of the key that the tree holds, and says where and why it stopped there |
| RadixTree.Tree.BranchOut | lib/mapping/tree.js:49-101 | A key that leaves the tree inside a node ends or continues at a new cut, with the effect of one map step |
| RadixTree.Tree.CutNode | lib/mapping/tree.js:49-62 | Cutting a node keeps every stored binding and adds at most the one at the cut |
| RadixTree.Tree.CreateBranch | lib/mapping/tree.js:108-126 | The fields of both halves of a cut node, the counter and the one handler call |
| RadixTree.Tree.ValueAt | lib/mapping/tree.js:102-105 | A key that ends at a joining node fills it without changing the counter; at a valued node nothing changes |
| RadixTree.Tree.AddLeaf | lib/mapping/tree.js:93-101 | A leaf under a node stores exactly one new binding, at a key that was not there |
| RadixTree.Tree.OnItemAdded | lib/mapping/tree.js:128-131 | The counter grows by one |
| RadixTree.SplitShape | lib/mapping/tree.js:108-126 | A split keeps links, distinct sibling edges, distinct paths and the meaning of every other node |
| RadixTree.PushAll | lib/mapping/tree.js:93-101 | Adding a leaf keeps the shape and adds one binding |
| RadixTree.FillShape | lib/mapping/tree.js:102-105 | Filling a joining node keeps the shape and adds one binding |
| RadixTree.NoWay | lib/mapping/tree.js:73-88 | When no edge starts with the next element, no node of the tree is at or below the key |
| RadixTree.OnlyWay | lib/mapping/tree.js:73-91 | The edge that starts with the next element is the only way to everything below it |
| RadixTree.Canonical | lib/mapping/tree.js:40-126 | The nodes of every reachable tree are exactly the root, the stored keys and the points where two stored keys part |
| RadixTree.UnvaluedNode | lib/mapping/tree.js:102-105 | A node without a value is not stored and joins at least two edges, unless it is the root of an empty tree |
| CacheIndex.RunMeaning | lib/mapping/tree.js:40-131 | After any run the bindings are the first item of each distinct key, in order of first use, and length plus the filled joining nodes is their number |
| CacheIndex.AnswersAreFirstItems | lib/mapping/tree.js:40-106 | Every request of every run is answered with the item made at the first use of its key |
| CacheIndex.SharedExactlyWhenEqual | lib/mapping/tree.js:40-106 | Two requests of a run share an item if and only if their keys are equal |
| CacheIndex.LengthCountsKeys | lib/mapping/tree.js:128-131 | length never exceeds the number of stored keys, and equals it if and only if no joining node was filled |
| CacheIndex.LengthMissesFilledNode | lib/mapping/tree.js:102-105 | A concrete run after which length is 2 while three keys are stored |
| CacheIndex.ServeAll | lib/mapping/tree.js:40-131 | The heap tree takes any sequence of requests through exactly the run that the laws speak of |
| ShapeKeys.OperatorsUnique | lib/mapping/cache.js:168-181 | The key of an operator tree of any depth, and what follows it, can be read back in one way only |
| ShapeKeys.SelectKeyInjective | lib/mapping/cache.js:19-66 | With names that SELECT keys keep apart, two SELECT requests have equal keys if and only if they have the same shape |
| ShapeKeys.SelectKeyNeedsNames | lib/mapping/cache.js:19-66 | Over any set of property names with an ordinary one, all SELECT keys determine the shape if and only if no name is one of the separators f, l and o or a comparison, and AND and the separator of operands are not both names |
| ShapeKeys.SelectNameConfused | lib/mapping/cache.js:40-66 | For each bad name and any other name, two SELECT shapes over them with one key |
| ShapeKeys.SelectAndConfused | lib/mapping/cache.js:168-181 | With AND and the separator of operands as names, a SELECT shape with q.and and one with three plain properties have one key |
| ShapeKeys.InsertKeyInjective | lib/mapping/cache.js:72-91 | With names that are no marks of INSERT, two INSERT requests have equal keys if and only if they have the same shape |
| ShapeKeys.InsertKeyNeedsNames | lib/mapping/cache.js:72-91 | Over any set of property names with an ordinary one, all INSERT keys determine the shape if and only if no name is one of the separators f, t and e |
| ShapeKeys.InsertNameConfused | lib/mapping/cache.js:72-91 | For each of these names and any other name, two INSERT shapes over them with one key |
| ShapeKeys.RemoveKeyCollides | lib/mapping/cache.js:133-158 | The key of a DELETE request is shared by that of another request if and only if it is ambiguous: no flag is set and a first condition or a last property or column can move over to the list beside it, where an object has no such name yet |
| ShapeKeys.TwinCollides | lib/mapping/cache.js:133-158 | For every ambiguous DELETE shape, another one that a request can have, with the same key |
| CacheSharing.SelectItemsFollowShapes | lib/mapping/cache.js:19-66 | Through the tree, two SELECT requests of any run share a cached query if and only if their shapes are equal |
| CacheSharing.InsertItemsFollowShapes | lib/mapping/cache.js:72-91 | Through the tree, two INSERT requests of any run share a cached query if and only if their shapes are equal |
| CacheSharing.RemoveItemsConfused | lib/mapping/cache.js:133-158 | A DELETE request can be given the query of another request's shape if and only if it is ambiguous |
| CachedQueries.SelectCacheIsTransparent | lib/mapping/mapping-handler.js:58-138 | In any run of SELECT requests, each is answered with exactly the text and getter that would be generated for it, and they are aligned with its own document |
| CachedQueries.InsertCacheIsTransparent | lib/mapping/mapping-handler.js:226-249 | In any run of INSERT requests, each is answered with the text that would be generated for it, and with its own getter if and only if the first document of its shape is accessed alike |
| CachedQueries.ShapeGivesQuery | lib/mapping/query-generator.js:27-80 | SELECT requests of one shape have the same text and the same getter |
| CachedQueries.InsertShapeGivesText | lib/mapping/query-generator.js:124-165 | INSERT requests of one shape have the same text, and the same getter if and only if their values are accessed alike |
| CachedQueries.AccessesDiffer | lib/mapping/query-generator.js:468-497 | The accesses generated for two values are the same if and only if both combine, compare or give values in the same places and, with a conversion, both or neither use IN |
| QueryAlignment.SelectAligned | lib/mapping/query-generator.js:27-80 | For every SELECT, through nested operators, the i-th placeholder is bound by the i-th value of the getter, as meant |
| QueryAlignment.InsertAligned | lib/mapping/query-generator.js:124-165 | An INSERT does what its document asks, with the i-th placeholder bound by the i-th value, if and only if no inserted value carries an operator and a TTL does not come without columns |
| QueryAlignment.UpdateAligned | lib/mapping/query-generator.js:238-326 | An UPDATE does what its document asks if and only if something is assigned, no key column carries an operator, there is a key or no condition, and IF EXISTS does not come with conditions |
| QueryAlignment.DeleteAligned | lib/mapping/query-generator.js:379-450 | A DELETE does what its document asks under the same condition on its keys and conditions, and only then |
| QueryAlignment.InsertInStep | lib/mapping/query-generator.js:124-165 | Operators aside, the i-th placeholder of an INSERT is bound by the i-th value if and only if no value combines operators and a TTL does not come without columns |
| QueryAlignment.UpdateInStep | lib/mapping/query-generator.js:238-326 | The same for an UPDATE: something is assigned, no key column combines operators, there is a key or no condition, and IF EXISTS does not come with conditions |
| QueryAlignment.DeleteInStep | lib/mapping/query-generator.js:379-450 | The same for a DELETE, for its keys and conditions |
| QueryAlignment.EqualityIsMeant | lib/mapping/query-generator.js:271-275 | Comparing key columns with equality is what the document asks for if and only if none of them carries an operator |
| QueryAlignment.CombinedKeyMisaligns | lib/mapping/query-generator.js:379-450 | With q.and on a key column, which is not refused, a DELETE getter gives more values than there are placeholders |
| QueryAlignment.GetUpdateAligned | lib/mapping/query-generator.js:177-236 | What an UPDATE does as requested, after columns outside the table are dropped and primary keys are split off |
| QueryAlignment.FilterColumns | lib/mapping/query-generator.js:177-215 | The filtering pass keeps exactly the columns of the table, and sets its flags exactly when some property needs them |
| QueryAlignment.SelectText | lib/mapping/query-generator.js:27-58 | The placeholders of a SELECT text read as the comparisons meant, in order |
| QueryAlignment.SelectGetter | lib/mapping/query-generator.js:61-80 | The array a SELECT getter returns is the list of values meant, in order |
| QueryAlignment.InsertText | lib/mapping/query-generator.js:124-147 | The n-th placeholder of an INSERT is for the n-th column, then for the TTL |
| QueryAlignment.InsertGetter | lib/mapping/query-generator.js:149-165 | What an INSERT getter returns, with the hole it leaves when there are no columns |
| QueryAlignment.UpdateText | lib/mapping/query-generator.js:238-285 | The placeholders of an UPDATE text read as TTL, assignments, keys and conditions, in order |
| QueryAlignment.UpdateGetter | lib/mapping/query-generator.js:294-326 | What an UPDATE getter returns, with the hole it leaves when nothing is assigned |
| QueryAlignment.KeyGetter | lib/mapping/query-generator.js:422-450 | What the getter returns for keys and conditions, with the hole it leaves when there are no keys |
| QueryStatements.SelectReads | lib/mapping/query-generator.js:27-58 | Read clause by clause, a SELECT is for the fields asked for, or all columns, of the table, under the conditions of its document, in the order asked for, with a limit exactly when asked |
| QueryStatements.InsertReads | lib/mapping/query-generator.js:124-147 | An INSERT is into the table, names the columns in order and as many values, and says IF NOT EXISTS and USING TTL exactly when asked |
| QueryStatements.UpdateReads | lib/mapping/query-generator.js:238-285 | An UPDATE is of the table, with a TTL exactly when asked, assigns what the document asks, where the keys have their values, under the conditions or IF EXISTS exactly when asked |
| QueryStatements.DeleteReads | lib/mapping/query-generator.js:379-420 | A DELETE is of exactly the columns of the properties that are no keys if only columns are to be deleted and of whole rows otherwise, from the table, where the keys have their values, under the conditions or IF EXISTS exactly when asked |
| QueryStatements.KeepAndDrop | lib/mapping/query-generator.js:177-215 | Splitting properties keeps exactly those with a column among the given ones and drops exactly the others, in their order |
| Operators.KeysMeanOperators | lib/mapping/q.js:84-111 | Every operator is written as the comparison it asks for |
| ReplicaPlacement.TokenNetworkStrategy | lib/metadata/schema-parser.js:1244-1338 | The map built by the nested loops gives every ring token the walk that starts at it |
| ReplicaPlacement.ReplicasFrom | lib/metadata/schema-parser.js:1266-1334 | The inner loop, with its early exit, gives the list of the full walk |
| ReplicaPlacement.VisitHost | lib/metadata/schema-parser.js:1275-1331 | One step of the walk: ignored, skipped or placed, with the skipped hosts added when the last rack is covered |
| ReplicaPlacement.AddSkippedHosts | lib/metadata/schema-parser.js:1344-1350 | Skipped hosts are taken in order, as many as there is room for |
| ReplicaPlacement.EarlyExit | lib/metadata/schema-parser.js:1352-1370 | Once every datacenter has its replicas, the rest of the ring changes nothing |
| ReplicaPlacement.TokenSimpleStrategy | lib/metadata/schema-parser.js:1208-1234 | Every ring token gets the first distinct hosts clockwise from it |
| ReplicaPlacement.SimpleReplicasFrom | lib/metadata/schema-parser.js:1208-1234 | The inner loop of the simple mapper stops with exactly the distinct hosts wanted |
| ReplicaPlacement.TableLookup | lib/metadata/schema-parser.js:1334-1338 | Each ring token finds its own answer in the map |
| PlacementLaws.Counters | lib/metadata/schema-parser.js:1266-1334 | The list is as long as the sum of the counters, and no counter exceeds the factor or the hosts of its datacenter |
| PlacementLaws.ExactSpread | lib/metadata/schema-parser.js:1263-1350 | Where no more replicas are wanted than there are racks, with any number of datacenters and tokens per host, each datacenter gets exactly the wanted number, min(factor, hosts), of distinct hosts on distinct racks |
| PlacementLaws.ExactInOneDatacenter | lib/metadata/schema-parser.js:1263-1350 | With one replicated datacenter and one token per host, any factor gives min(factor, hosts) distinct hosts on min(factor, racks) racks |
| PlacementLaws.SkippedHostsAreShared | lib/metadata/schema-parser.js:1266-1350 | The example of a ring on which a host is placed twice and another one of a second datacenter not at all |
| PlacementRepeats.RepeatsWithOneToken | lib/metadata/schema-parser.js:1263-1350 | Hosts with one token each: some arrangement around the ring repeats a replica if and only if two datacenters want more replicas than they have racks and some datacenter can skip a host |
| PlacementRepeats.RepeatsWithTokens | lib/metadata/schema-parser.js:1263-1350 | Hosts with any numbers of tokens: in addition if one datacenter wants two more replicas than it has racks and some datacenter can skip twice, and in no other cluster |
| PlacementRepeats.TakenByBoth | lib/metadata/schema-parser.js:1304-1329 | An arrangement of such a cluster on which both datacenters take the same skipped host |
| PlacementRepeats.TakenTwice | lib/metadata/schema-parser.js:1304-1329 | An arrangement with two tokens for one host, on which it is skipped twice and taken twice |
| PlacementRepeats.TidyWalk | lib/metadata/schema-parser.js:1266-1350 | While only one datacenter takes skipped hosts, no replica is repeated, the counter of every other datacenter is the number of its racks taken so far, and no replica waits among the skipped hosts until that datacenter is complete |
| PlacementCounts.CountsWithOneToken | lib/metadata/schema-parser.js:1263-1350 | Hosts with one token each: some arrangement around the ring gives a datacenter another number of its own hosts than wanted if and only if one datacenter wants more replicas than it has racks and another one can skip a host |
| PlacementCounts.CountsWithTokens | lib/metadata/schema-parser.js:1263-1350 | Hosts with any numbers of tokens: in addition if one datacenter wants two more replicas than it has racks and can skip a host twice, and in no other cluster |
| PlacementCounts.ExactCounts | lib/metadata/schema-parser.js:1263-1350 | In every other cluster each datacenter gets exactly the wanted number of its own hosts, on min(factor, racks) racks |
| PlacementCounts.PlacedAlone | lib/metadata/schema-parser.js:1266-1350 | Where no datacenter takes hosts of another one, each is placed step by step as if it were the only one replicated |
| PlacementCounts.OneGetsWanted | lib/metadata/schema-parser.js:1263-1350 | One replicated datacenter with any numbers of tokens gets what it wants unless one of its hosts can be taken twice |
| PlacementCounts.ForeignTaken | lib/metadata/schema-parser.js:1304-1350 | An arrangement on which a datacenter counts a skipped host of another one for itself |
| PlacementCounts.OwnTakenTwice | lib/metadata/schema-parser.js:1304-1350 | An arrangement on which a datacenter counts two tokens of one skipped host |
| PlacementCounts.RightCountsDoNotRepeat | lib/metadata/schema-parser.js:1263-1350 | A cluster whose counts are right on every arrangement repeats no replica on any |
| PlacementLaws.SimplePlacement | lib/metadata/schema-parser.js:1208-1234 | The simple strategy gives min(factor, owners) distinct owners, the first of them the token's own |
| PlacementOrder.PlacedInOrder | lib/metadata/schema-parser.js:1263-1350 | With one replicated datacenter and one token per host, the replicas are exactly the first host met of each rack and then the other hosts in the order they are met, cut off at min(factor, hosts) |
| PlacementOrder.OwnPlacedInOrder | lib/metadata/schema-parser.js:1263-1350 | The same of the hosts of each datacenter in every cluster where none takes hosts that another one skipped |
| PlacementOrder.SkippedHostsAreLost | lib/metadata/schema-parser.js:1263-1350 | Where a host of the one replicated datacenter has no rack, the replicas are exactly its hosts without a rack and the first host met of each rack, in the order they are met, however many more are wanted |
| PlacementOrder.ShortExactly | lib/metadata/schema-parser.js:1263-1350 | Then fewer hosts than wanted are chosen if and only if some rack has two hosts and the factor is above the number of these hosts |
| TokenRanges.ContainsIsClockwise | lib/token.js:243-264 | contains holds exactly of the tokens met clockwise from the start up to and including the end |
| TokenRanges.UnwrapKeepsMembership | lib/token.js:219-241 | unwrap gives ranges that do not wrap, share no token and hold the same tokens |
| TokenRanges.SplitEvenly | lib/token.js:143-177 | The loop cuts the range at the given points, and refuses what the source refuses |
| TokenRanges.SplitPartitions | lib/token.js:143-177 | Splitting at points clockwise inside a range partitions it |
| TokenRing.BinarySearch | lib/utils.js:287-306 | A position of the key, or the complement of the place where it belongs |
| TokenRing.InsertSorted | lib/utils.js:314-323 | The array stays sorted and holds one more element |
| TokenRing.PartitionExactly | lib/metadata/index.js:159-185 | The ranges of a sorted ring hold every token exactly once if and only if the ring is not made of one repeated token and does not repeat the minimum token |
| TokenRing.RangeEndsAtOwner | lib/metadata/index.js:308-342 | On every ring of two or more tokens that partitions the token space, the range holding a token is the one that ends at the ring token serving it, around the end of the ring and at the minimum token |
| TokenRing.StrictRingSplits | lib/metadata/index.js:130-188 | A ring of different tokens always satisfies the condition |
| ClusterMetadata.Metadata.BuildTokens | lib/metadata/index.js:130-188 | The ring is sorted and holds exactly the tokens of the hosts; owners, datacenters and ranges are those of the hosts |
| ClusterMetadata.Metadata.CollectTokens | lib/metadata/index.js:130-158 | The pass over the hosts collects tokens, owners and datacenter counts |
| ClusterMetadata.Metadata.InsertTokens | lib/metadata/index.js:139-150 | The tokens of one host are inserted in order and owned by it |
| ClusterMetadata.Metadata.BuildRanges | lib/metadata/index.js:165-182 | The range of each token reaches to its successor, around the ring |
| ClusterMetadata.Metadata.GetKeyspaceReplicas | lib/metadata/index.js:286-299 | The table of a keyspace is the cached one or is computed once and cached |
| ClusterMetadata.Metadata.OwnerIndex | lib/metadata/index.js:318-332 | The binary search with wrap-around finds the first ring token not before the token, around the ring, also where tokens are repeated |
| ClusterMetadata.Metadata.GetReplicas | lib/metadata/index.js:308-342 | The replicas of that ring token, its owner without a keyspace, and null for what is not known |
| ClusterMetadata.Metadata.GetTokenRangesForHost | lib/metadata/index.js:359-384 | Exactly the ranges whose end is replicated on the host; null for an unknown ring or keyspace; an exception without a keyspace or for an end without an entry |
| ClusterMetadata.RangesForHostAgree | lib/metadata/index.js:359-384 | On every such ring, a host serves a token by getReplicas if and only if one of its token ranges contains the token |
| ClusterMetadata.StrictRing | lib/metadata/index.js:130-158 | Hosts with pairwise different tokens give a strictly sorted ring |
| ClusterMetadata.BuiltDescribes | lib/metadata/index.js:139-158 | The datacenter table built with the ring counts exactly the hosts and racks met around it |
| ClusterMetadata.BuiltReplicasSpread | lib/metadata/schema-parser.js:1244-1338 | From the hosts to the table: every ring token has exactly the wanted number of distinct hosts on distinct racks in every datacenter |
| ReplicaTables.RingOfMembers | lib/metadata/index.js:130-158 | The ring holds exactly the tokens that hosts claim, and the owner of each is the last host that claims it |
| ReplicaTables.SimpleTable | lib/metadata/schema-parser.js:1208-1234 | In the table a keyspace gets under SimpleStrategy with a factor over 1, the entry of every ring token holds min(factor, owners) distinct owners, in the order they are first met clockwise, the token's own owner first |
| ReplicaTables.OwnerTable | lib/metadata/schema-parser.js:1181-1200 | With a factor of one or less, or another strategy, the entry of every token is exactly its owner |
| ReplicaTables.TableHoldsRing | lib/metadata/schema-parser.js:1181-1234 | Exactly the ring tokens have an entry, under every strategy |
| ReplicaTables.NetworkTable | lib/metadata/schema-parser.js:1244-1338 | Under NetworkTopologyStrategy, where no more replicas are wanted than there are racks, the entry of every ring token holds exactly min(factor, hosts) of the hosts of each datacenter, on distinct racks |
| Varint.EncodeVarintFromBigInt | lib/encoder.js:890-934 | The loop of shifts and the padding byte give the bytes of the format |
| Varint.DecodeVarintAsBigInt | lib/encoder.js:472-488 | The two loops give the two's-complement value of the bytes |
| Varint.VarintRoundTrip | lib/encoder.js:472-488 | Decoding the encoding of any integer returns it |
| Varint.VarintShortest | lib/encoder.js:890-934 | No shorter buffer stands for the same number |
| VIntCoding.ZigZag | lib/utils.js:1043-1052 | Zigzag encoding numbers 0, -1, 1, -2, ... in order, and decoding inverts it |
| VIntCoding.SizeFormula | lib/utils.js:1082-1086 | The closed form with leading zeros is the number of 7-bit groups, at most 9 |
| VIntCoding.EncodeVInt | lib/utils.js:1092-1111 | Two 32-bit halves written backwards in place give the bytes of the format whatever the buffer held, and nothing beyond them changes |
| VIntCoding.WriteUnsignedVInt | lib/utils.js:1068-1080 | The size and the bytes written for any 64-bit pattern |
| VIntCoding.WriteVInt | lib/utils.js:1059-1066 | The size and the bytes written for any 64-bit integer |
| VIntCoding.ReadUnsignedVInt | lib/utils.js:1162-1176 | What is read at an offset and the offset after it |
| VIntCoding.ReadVInt | lib/utils.js:1152-1160 | What is read at an offset and the offset after it, as a signed number |
| VIntCoding.NumberOfExtraBytesToRead | lib/utils.js:1214-1221 | Counting zeros of the complement counts the leading ones of the first byte |
| VIntCoding.UnsignedRoundTrip | lib/utils.js:1162-1176 | Reading at a place where a pattern was written returns it and advances by its size |
| VIntCoding.VIntRoundTrip | lib/utils.js:1059-1160 | readVInt inverts writeVInt for all 64-bit integers, anywhere in a buffer, advancing by 1 to 9 bytes |
| VIntCoding.UvintPack | lib/utils.js:1256-1287 | For numbers below 2^31 the bytes are those of writeUnsignedVInt |
| VIntCoding.UvintUnpack | lib/utils.js:1232-1249 | What the 32-bit loop reads, and how many bytes |
| VIntCoding.UvintRoundTrip | lib/utils.js:1232-1287 | uvintUnpack inverts uvintPack for numbers below 2^31, whatever follows |
| CodecLayout.VIntSpelled | lib/utils.js:1068-1111 | Read as one number, the bytes of a vint are its value with as many ones in front as bytes follow the first, and there are the fewest bytes with room for it |
| Durations.ReusableBuffers.ToBuffer | lib/types/duration.js:141-164 | Three vints one after another, whatever earlier calls left in the shared buffers |
| Durations.FromBuffer | lib/types/duration.js:223-229 | Three vints read at a moving offset |
| Durations.DurationRoundTrip | lib/types/duration.js:223-229 | fromBuffer restores the three fields that toBuffer wrote |
| CodecLoops.EncodeValue | lib/encoder.js:281-348 | The dispatch on the type computes the encoding of any value, of whatever class |
| CodecLoops.EncodeListItems | lib/encoder.js:1065-1096 | The loop over a list: null for an empty one, an exception for a null item, else length and sized items |
| CodecLoops.EncodeMap | lib/encoder.js:1117-1176 | The loop over the entries of a map, or the own properties of anything else; the count is put in front at the end |
| CodecLoops.EncodeTuple | lib/encoder.js:1183-1243 | The loops over tuples and user-defined types, with -1 for null; only a value that has a length but is no tuple is refused |
| CodecLoops.EncodeVector | lib/encoder.js:1340-1368 | The loop over a vector, with sizes only when the element type has no fixed size |
| CodecLoops.PackElement | lib/encoder.js:1357-1366 | The size prefix of one vector element |
| CodecLoops.DecodeValue | lib/encoder.js:249-264 | The dispatch on the type computes the value of any buffer |
| CodecLoops.DecodeListItems | lib/encoder.js:509-529 | The loop over list items, for any buffer, with its exceptions |
| CodecLoops.DecodeMap | lib/encoder.js:541-581 | The entries given to the callback, in order, with null for a length below zero |
| CodecLoops.ReadValues | lib/encoder.js:547-567 | The inner loop of the map decoder |
| CodecLoops.DecodeTuple | lib/encoder.js:624-646 | The array of elements filled as far as the buffer goes |
| CodecLoops.DecodeUdt | lib/encoder.js:597-622 | The object filled member by member as far as the buffer goes |
| CodecLoops.DecodeComponents | lib/encoder.js:624-643 | The loop tuples and user-defined types share |
| CodecLoops.DecodeVector | lib/encoder.js:1251-1293 | The loop over vector elements, which must end where the buffer ends |
| Framing.ListFramed | lib/encoder.js:509-528 | The items put after their lengths are found again, and the length is their number |
| Framing.MapFramed | lib/encoder.js:541-567 | Keys and values put after their lengths are found again |
| Framing.PartsFramed | lib/encoder.js:624-643 | Tuple components and their nulls are found again |
| Framing.ElementsFramed | lib/encoder.js:1251-1290 | Vector elements, bare or after their sizes, are found again and use up the whole buffer |
| CodecRoundTrip.SingleRoundTrip | lib/encoder.js:388-502 | Decoding inverts encoding for every type without parts |
| CodecRoundTrip.FixedSizeEncodes | lib/encoder.js:1299-1333 | A type with a fixed serialization size gives every value exactly that many bytes, through nested vectors |
| CodecRoundTrip.RoundTrip | lib/encoder.js:509-646 | What is encoded for a value comes back, through any nesting of types |
| CodecRoundTrip.NormKeeps | lib/encoder.js:1065-1096 | A value comes back unchanged if and only if it has no undefined, no empty list or set, and exactly the components of its types |
| CodecRoundTrip.DecodeInvertsEncode | lib/encoder.js:249-348 | The buffer made of any well-typed value decodes, and to the same value if and only if the value is plain |
| CodecAccepts.EncodeTold | lib/encoder.js:1012-1368 | For every value, of whatever class, and every type: encode throws exactly for what is not accepted, gives null exactly for missing values and empty lists and sets, and otherwise has the size computed from its parts |
| CodecAccepts.ClassesNotChecked | lib/encoder.js:1012-1243 | Every value is a boolean by its truth; what has no properties is an empty map, what has no length an empty tuple, and what has no members an object of nulls |
| CodecAccepts.TakenComesBack | lib/encoder.js:649-1064 | A value of another class that a type without parts takes comes back as the value it was converted to |
| CodecAccepts.AcceptedRoundTrip | lib/encoder.js:249-348 | Every accepted value of its type makes a buffer of that size, which decodes |
| CodecLayout.NumbersSpelled | lib/encoder.js:699-1063 | Integers are in two's complement, high byte first, in 1, 2, 4 or 8 bytes, and refused outside their range; a Date is its milliseconds |
| CodecLayout.OthersSpelled | lib/encoder.js:649-1064 | Booleans are one byte 1 or 0, durations three vints, and texts, identifiers and floating-point numbers their bytes |
| CodecLayout.IntegersRead | lib/encoder.js:433-488 | From any buffer that is not empty, integers are read in two's complement from the first 1, 2, 4 or 8 bytes, or all of a varint; bytes beyond are ignored and too few throw |
| CodecLayout.OthersRead | lib/encoder.js:388-446 | From any such buffer, a boolean is whether the first byte is not 0, floating-point numbers are the first 8 or 4 bytes, identifiers need exactly 16 bytes, and texts and blobs are the buffer |
| CodecLayout.BooleansSpelled | lib/encoder.js:1020-1025 | A boolean is 0 for false, zero, no number and an empty text, and 1 for everything else that is not missing |
| CodecLayout.ClassesRefused | lib/encoder.js:649-1064 | The classes of values that each type without parts refuses |
| CodecLayout.ClassesConverted | lib/encoder.js:649-1064 | Booleans and dates are numbers for the small integer types, and numbers dates for timestamps |
| CodecLayout.ListSpelled | lib/encoder.js:1065-1096 | A list is its number of items in four bytes, two up to version 2 of the protocol, and every item after its length |
| CodecLayout.MapSpelled | lib/encoder.js:1117-1176 | A map is its number of entries and every key and value after its length, zero for a value without bytes |
| CodecLayout.PartsSpelled | lib/encoder.js:1183-1243 | A tuple or an object is its components, each after four bytes of length, and FF FF FF FF for one without bytes |
| CodecLayout.VectorSpelled | lib/encoder.js:1299-1368 | A vector of bigint, boolean, timestamp, double, float, int, timeuuid or uuid, or of vectors of them, is the bare bytes of its elements, 8, 1, 8, 8, 4, 4, 16 or 16 each; of every other type each element follows its size as a vint |
| CodecLayout.EmptyBuffers | lib/encoder.js:249-264 | An empty buffer is an empty text, blob or duration, no vector, and null for every other type |
| CodecLayout.FirstComponents | lib/encoder.js:597-646 | A buffer that ends after some components of a tuple or an object gives those, and nothing for the rest |
| CodecLayout.LengthsAccepted | lib/encoder.js:2146-2177 | Collections are refused exactly when their length has no room |
| VectorLengths.VectorLengthIsExact | lib/encoder.js:1251-1293 | Decoding throws for the buffer of every vector with anything left out at its end or anything put behind it, also where the bytes of an element's size are cut off |
| RoutingKeys.EncodeRoutingKeyParts | lib/encoder.js:1539-1564 | The total length, or 0 when a part has no bytes |
| RoutingKeys.ConcatRoutingKey | lib/encoder.js:2270-2289 | Fills exactly the precomputed length, returns a single part as it is, and throws for a part of 65536 bytes or more |
| RoutingKeys.SetRoutingKey | lib/encoder.js:1501-1530 | The two steps together |
| RoutingKeys.CompositeLength | lib/encoder.js:1556-1560 | Three extra bytes per part give the exact length |
| RoutingKeys.RoutingKeyInjective | lib/encoder.js:2270-2289 | Equal keys of two parts or more have equal parts |
| RoutingKeys.CompositeLayout | lib/encoder.js:2270-2289 | At its computed offset each part is its length in two bytes, high byte first, its bytes, and a zero, and the last part ends the key |
| RoutingKeys.RoutingKeyOutcome | lib/encoder.js:1539-1564 | There is no key exactly without parts or with one that has no bytes; one part is the key; several throw exactly when one of them has 65536 bytes or more |
| TypeParams.ParseParams | lib/encoder.js:2240-2262 | The loop over an index window gives the pieces of the window, also where it reaches beyond the text |
| TypeParams.SplitIsUnique | lib/encoder.js:2240-2262 | The pieces are the only list of texts that rebuilds the window when joined by commas, with no comma outside brackets in any piece and every piece but the last balanced |
| TypeNames.Params | lib/encoder.js:2240-2262 | Each piece is shorter than the text, which is why the parser terminates |
| TypeNameLaws.FrozenChangesOneOption | lib/encoder.js:1606-1611 | Wrapping any text that starts with list, set, map or tuple in frozen<...> changes only options.frozen |
| TypeNameLaws.FrozenNamesFound | lib/encoder.js:1606-1611 | frozen<s> is parsed to the frozen user-defined type s if and only if the resolver knows s and it does not start with a keyword or a double quote and is neither a code name nor empty |
| TypeNameLaws.ParseInvertsFull | lib/encoder.js:1579-1774 | Parsing the whole name of a type, with frozen<...> wherever it is frozen, gives it back with all its options, if and only if no vector in it has a comma or a user-defined type in the name of its elements' type; otherwise the parser throws |
| TypeNameLaws.ParseInvertsPrint | lib/types/index.js:416-452 | Parsing a printed type gives it back, up to options, if and only if no vector in it has a comma or a user-defined type in the name of its elements' type; otherwise the parser throws |
| TypeNameLaws.TypesAreWellPrinted | lib/types/index.js:416-452 | A printed type has no comma outside brackets, balanced brackets and no surrounding spaces |
| TypeNameLaws.VectorPieces | lib/encoder.js:1379-1405 | The parameters of a printed vector are two if and only if its elements' type name has no comma |
| TypeNameLaws.WrongCountThrows | lib/encoder.js:1613-1690 | The parser throws for a list or set of other than one printed type and a map of other than two |
| TypeNameLaws.CodeNamesAreSafe | lib/types/index.js:93-120 | No simple type name starts like a type with parameters |
| TypeNameLaws.KeywordsShadowNames | lib/encoder.js:1613-1735 | A name that starts with a keyword is never resolved as a user-defined type |
| TypeNameLaws.NamesFound | lib/encoder.js:1579-1774 | A text is parsed to the user-defined type of that name if and only if the resolver knows it and it does not start with a keyword, frozen or a quote and is neither a code name nor empty |
| TypeNameLaws.NamesLookedUp | lib/encoder.js:1736-1774 | A plain name is a simple type, the empty custom type or a user-defined type that the resolver knows, in this order, or the parser throws |
| TypeNameLaws.QuotedNamesFound | lib/encoder.js:1736-1752 | A name in double quotes, with every quote in it written twice, is parsed to the user-defined type of that name if and only if it holds at most one quote, is no code name and not empty, and the resolver knows it |
| TypeNameLaws.QuotedIsCustom | lib/encoder.js:1593-1600 | Every text in single quotes is the custom type of that text |
| ResultSets.ResultSetGroup.SetResultItem | lib/concurrent/index.js:338-345 | One more execution, whose result stands at its index when results are collected |
| ResultSets.ResultSetGroup.SetError | lib/concurrent/index.js:350-360 | One more execution; the error is kept while fewer than the maximum are |
| StreamExecutor.StreamBasedExecutor.ExecuteOne | lib/concurrent/index.js:224-275 | What one item of the stream does to the executor |
| StreamExecutor.StreamBasedExecutor.OnSuccess | lib/concurrent/index.js:244-247 | What a successful execution does |
| StreamExecutor.StreamBasedExecutor.OnFailure | lib/concurrent/index.js:248-251 | What a failed execution does |
| StreamExecutor.StreamBasedExecutor.OnContinuation | lib/concurrent/index.js:252-266 | Resuming the stream, and settling when nothing is left |
| StreamExecutor.StreamBasedExecutor.MarkReadEnded | lib/concurrent/index.js:277-290 | Ending the reading, with an error or without one |
| StreamExecutor.StreamBasedExecutor.SetError | lib/concurrent/index.js:292-299 | Raising an error ends the reading and rejects |
| StreamExecutor.RunsAreBounded | lib/concurrent/index.js:224-299 | In every run: executed plus in flight is accepted; in flight never exceeds the level; the stream is paused when as many are in flight, only then, and always resumed; once reading has ended and nothing runs, the promise is settled |
| StreamExecutor.SettlementIsRight | lib/concurrent/index.js:212-360 | In every run: rejected if and only if an execution failed and errors are raised, or the stream failed or gave a wrong item before its end, with the first such error; resolved only after the end, with every accepted item executed and standing at its own index; the errors kept are the first ones |
| StreamExecutor.SettledAtRest | lib/concurrent/index.js:252-290 | In every run after which nothing is left to run, the promise is rejected exactly then, resolved if and only if the stream has ended otherwise, and pending if neither |
| StreamExecutor.EndsOnce | lib/concurrent/index.js:236-251 | No ending of an item replaces another |
| ArrayExecutor.ArrayBasedExecutor.ExecuteOneAtATime | lib/concurrent/index.js:136-159 | The next item of a worker: none, executed at once, or prepared first |
| ArrayExecutor.ArrayBasedExecutor.OnPrepared | lib/concurrent/index.js:155-164 | A prepared query is cached and executed |
| ArrayExecutor.ArrayBasedExecutor.OnSuccess | lib/concurrent/index.js:162-166 | The result is stored and the worker goes on |
| ArrayExecutor.ArrayBasedExecutor.OnFailure | lib/concurrent/index.js:169-176 | The error is stored; the worker goes on or, when errors are raised, all stop |
| ArrayExecutor.OneWorkerPerItem | lib/concurrent/index.js:136-138 | Workers never share an item |
| ArrayExecutor.AtMostOnce | lib/concurrent/index.js:125-177 | In every run no item is executed twice, and the result counts exactly the executions that ended |
| ArrayExecutor.AllItemsExecuted | lib/concurrent/index.js:125-177 | When every worker has finished, so that the result is given, every item was executed exactly once and its ending stands at its index |
| ArrayExecutor.AllItemsExecutedAtRest | lib/concurrent/index.js:125-177 | When errors do not raise and prepares succeed, any run after which nothing more can happen has every worker finished and every item executed exactly once |
| ArrayExecutorLaws.ExecutedArePrepared | lib/concurrent/index.js:153-164 | In every run the cache holds exactly the queries prepared so far, and every item executed had its query in it |
| ArrayExecutorLaws.LevelIsKept | lib/concurrent/index.js:110-134 | There are min(level, items) workers; each starts with the item of its own number, and no more executions than that go on in any state of any run |
| ArrayExecutorLaws.PreparedOnce | lib/concurrent/index.js:153-157 | In every run no worker begins to prepare a query that has been prepared |
| ArrayExecutorLaws.RejectedExactly | lib/concurrent/index.js:136-177 | In every run a worker is rejected if and only if a prepare of its item failed or an execution did and errors are raised, and all are told to stop if and only if an error was raised |
| ArrayExecutorLaws.NoItemAfterError | lib/concurrent/index.js:139-141 | In every run, once an error was raised, no worker whose execution ends takes another item |
| ArrayExecutorLaws.FirstErrorsKept | lib/concurrent/index.js:350-360 | In every run the errors kept are the first that occurred, as many as are to be kept |
| Debouncing.EventDebouncer.EventReceived | lib/metadata/event-debouncer.js:34-71 | What one event does to the queue and the timer, or at once without delay |
| Debouncing.EventDebouncer.SlideDelay | lib/metadata/event-debouncer.js:79-100 | The timer is set anew, or the queue is processed now |
| Debouncing.EventDebouncer.ProcessQueue | lib/metadata/event-debouncer.js:122-157 | Which handlers are called for a queue, and which callbacks wait for them |
| Debouncing.EventDebouncer.HandleEach | lib/metadata/event-debouncer.js:148-153 | Individual handlers, each followed by its callback |
| Debouncing.EventDebouncer.OnHandlerEnded | lib/metadata/event-debouncer.js:125-145 | The callbacks that waited for a handler are invoked when it has ended |
| Debouncing.EventDebouncer.Shutdown | lib/metadata/event-debouncer.js:105-115 | All queued callbacks are invoked and the timer is cleared |
| DebouncerLaws.EveryCallbackOnce | lib/metadata/event-debouncer.js:34-157 | In every run each callback is in exactly one place: invoked once, waiting for a handler, or queued; and a timer is pending if and only if there is a queue |
| DebouncerLaws.AllInvokedAtRest | lib/metadata/event-debouncer.js:34-157 | When nothing is queued and no handler runs, every callback has been invoked exactly once |
| DebouncerLaws.EveryEventServed | lib/metadata/event-debouncer.js:34-157 | Every callback not invoked by a shutdown follows its own handler, or one that refreshes its keyspace or everything, called after the event was received |
| DebouncerBatches.HandlersCalled | lib/metadata/event-debouncer.js:79-157 | A step of any run calls no handler, unless the timer fires or an event is to be acted on at once; then it calls exactly, of the events since the queue was last empty, the last one that asks for everything, or else in each keyspace the last one that asks for all of it, or else every one |
| DebouncerBatches.HandlersInOrder | lib/metadata/event-debouncer.js:79-157 | In every run the handlers of events of one keyspace are called in the order of the events, and so none twice |
| DebouncerBatches.UnhandledOnlyByShutDown | lib/metadata/event-debouncer.js:105-115 | In every run a callback that follows no handler was invoked by a shutdown while its event was queued |
| DebouncerBatches.EveryEventHandled | lib/metadata/event-debouncer.js:34-157 | In every run at rest, the callback of every event that no shutdown found queued followed a handler that covers the event and was called after it was received |
| QueryPlan.ShuffleArray | lib/utils.js:494-505 | The loop makes exactly the swaps that the random numbers ask for |
| QueryPlan.ShuffleKeeps | lib/utils.js:494-505 | Whatever the random numbers are, no element is lost or repeated |
| QueryPlan.ShuffleReachesAll | lib/utils.js:494-505 | For every arrangement of the elements there are random numbers that lead to it |
| QueryPlan.ShuffleIsFair | lib/utils.js:494-505 | Different random numbers lead to different arrangements of distinct elements, so that each arrangement is as likely as any other |
| QueryPlan.SendUnhealthyToTheBack | lib/policies/load-balancing.js:823-845 | The array keeps its elements, and all healthy replicas precede all unhealthy ones |
| QueryPlan.DefaultLoadBalancingPolicy.FilterReplicas | lib/policies/load-balancing.js:684-711 | The accepted local replicas that are up, the newest of the newly-up ones if there are any, and the unhealthy count while there are none |
| QueryPlan.DefaultLoadBalancingPolicy.Reorder | lib/policies/load-balancing.js:722-750 | The order exactly: unhealthy replicas last when they are no majority, or else a newly up one among the first two exchanged with the last when the dice say so, and then the less busy of the first two first |
| QueryPlan.DefaultLoadBalancingPolicy.OrderReplicas | lib/policies/load-balancing.js:678-753 | The accepted local replicas that are up, as drawn if they are fewer than three, and otherwise rearranged for the newest of them or for the unhealthy ones, with the less busy of the first two first |
| QueryPlan.OrderMeans | lib/policies/load-balancing.js:716-750 | Of three replicas or more the less busy of the first two is first; without newly up ones an unhealthy minority is last and the first two are healthy; the newest of the newly up ones is last if it was drawn among the first two and the dice say so |
| QueryPlan.DefaultLoadBalancingPolicy.GetLocalHosts | lib/policies/load-balancing.js:658-676 | The local hosts that are up and not among the replicas, rotated by the index |
| QueryPlan.DefaultLoadBalancingPolicy.GetIndex | lib/policies/load-balancing.js:814-821 | The index grows by one and restarts at 0x7fffffff |
| QueryPlan.DefaultLoadBalancingPolicy.GetFilteredLocalHosts | lib/policies/load-balancing.js:803-812 | The cached list is the filtered one for the current hosts |
| QueryPlan.DefaultLoadBalancingPolicy.GetReplicasAndLocalHosts | lib/policies/load-balancing.js:678-764 | The whole plan for a token |
| QueryPlan.DefaultLoadBalancingPolicy.NewQueryPlan | lib/policies/load-balancing.js:603-636 | The plan with the preferred host first |
| QueryPlan.DefaultLoadBalancingPolicy.GetPreferredHostFirst | lib/policies/load-balancing.js:643-651 | The preferred host comes first and only there |
| QueryPlan.LocalPlan | lib/policies/load-balancing.js:658-676 | Without a token: every accepted local host that is up, exactly once |
| QueryPlan.ReplicaPlan | lib/policies/load-balancing.js:678-764 | For a token: every accepted local replica that is up, once, then every other such host, once, and nothing else |
| QueryPlan.PreferredPlan | lib/policies/load-balancing.js:643-651 | A preferred host put first adds no repetition and loses no host |
| QueryPlan.PlanGoesAround | lib/policies/load-balancing.js:658-676 | The local hosts of a plan stand in the order of the list of hosts, around it from the place the index gives |
| QueryPlan.PlanFromIndex | lib/policies/load-balancing.js:658-676 | When all local hosts are up, the plan is the whole list from the place the index gives |
| QueryPlan.EachStartsOnce | lib/policies/load-balancing.js:658-676 | Of as many plans in a row as there are local hosts, all up, exactly one starts with each of them |
| TokenAware.TokenAwareIterator.constructor | lib/policies/load-balancing.js:306-329 | What the iterator will yield: local replicas from a random one on, then the rest of the child plan |
| TokenAware.TokenAwareIterator.ComputeNext | lib/policies/load-balancing.js:350-371 | Each call yields the first of the remaining hosts, and null only when there are none |
| TokenAware.PlanIsDistinct | lib/policies/load-balancing.js:299-372 | The plan repeats no host and holds exactly the local replicas and the child's hosts at other addresses |
| TokenAware.PlanInOrder | lib/policies/load-balancing.js:299-372 | The local replicas come first, around their list from the random one on, and then hosts in the order of the child plan |

## Left out
- The Rust sources, the native wrappers, sessions, connections, DNS, authentication and promise scheduling: I/O and foreign code.
- Key iterators of the radix tree are sequences with a cursor, and the loop of getOrCreate is split where it branches; a handler that calls the tree again, and the add event, are not modelled.
- The empty key sequence of the radix tree is modelled as the code handles it, but the run laws need at least one element in each key, as callers give.
- The keys of UPDATE requests and of select-all requests, and whether all primary keys are defined, which is not part of a select key: nothing separates the parts, as for DELETE.
- CachedQueries.InsertCacheIsTransparent: runs are of requests each finished before the next. An item is filled only later, so overlapping requests of one shape each build a query and the last one stays; for SELECT these are equal (`ShapeGivesQuery`).
- The key of an INSERT tests `ifNotExists` for truth and its text compares it with true; values other than booleans are left out.
- An assignment such as `q.incr` on a key column or inserted value stands for itself.
- Query texts are sequences of tokens, not characters; quoting of names and the compilation of getters are left out.
- Tokens are integers in ring order; tokenizers, hashing and their split points are parameters.
- Racks that are null, undefined or empty are one value; how many hosts each datacenter gets on the arrangements where a count is wrong is not stated.
- A keyspace's cached replicas can be out of date after the ring is rebuilt; routing keys that must be hashed first are left out.
- ClusterMetadata.Metadata.GetReplicas: gives null for an empty ring, where the code gives a list holding undefined or no entry.
- Codec values: text is its bytes, and floating-point numbers and identifiers are opaque bytes of a fixed size. Longs and varints are BigInts (useBigIntAsLong, useBigIntAsVarint) and timestamps Dates; unset values, decimal, inet, date, time and the Long and Integer classes are left out.
- What JavaScript makes of values of other classes is a parameter: the conversion of strings and of numbers to another type, the own properties of objects that are no maps, and members that objects of other classes have; members that every object inherits count as absent.
- Maps and sets are the sequences of entries in the order they are iterated or given to the callback; removal of duplicates by a Map or Set class is left out.
- Fully-qualified type names (parseFqTypeName) and custom types other than duration and vector.
- Timestamps beyond the range of a JavaScript Date, and the loss of precision of numbers above 2^53 when vints become JavaScript numbers.
- TypeNameLaws.ParseInvertsFull: user-defined types are covered when their name is a plain identifier that no keyword starts, because only such names are printed as they are parsed (quoted names are covered by `QuotedNamesFound`); spaces other than blank, tab and line ends are not trimmed.
- Duration parsing and printing as text, InetAddress, date and time classes, and getByName.
- StreamExecutor.RunsAreBounded: the bound on executions in flight assumes that the continuations of ended executions run before the stream gives more data, as microtasks do before the next tick.
- Event handlers of the debouncer neither throw nor call it again while a queue is processed: one that throws at once leaves callbacks uninvoked; the warning about long queues and the errors passed to callbacks are left out.
- Query plans are computed at once over a snapshot; generators are lazy, so a host that goes down while a plan is used is not modelled. Round-robin, DC-aware and allow-list policies are left out as easy.
- ArrayExecutor.AllItemsExecuted: says nothing when a worker is rejected, because the user then gets the error and no result.
- The random numbers of shuffles and reorderings are parameters, with every value allowed; how likely each one is is not modelled.
- The debouncer's timer is pending or not; how long it waits, and so how far each event moves it, is not modelled.
- Which table a SELECT uses may depend on whether all primary keys are asked for, which is not in its key; the cached query is then that of the first request.
