# DLite: verified model of instances, arrays, triplestore, mappings and collections

DLite is an in-memory framework for metadata and instances, written in C. This project models its hard parts in
Dafny and proves what they keep:

- the built-in triplestore: a growable array with an index from ids, removals that stay pending while iterators
  run, and compaction by the last iterator (`Strings`, `Triples`, `TripleStores`, `IteratorRuns`,
  `RepairedIndex`);
- strided n-dimensional arrays, slices, casts between two strided layouts and copies of properties in C and
  Fortran order (`MixedRadix`, `Memory`, `Arrays`, `Slices`, `SliceCounts`, `NdCast`, `PropertyCopy`);
- transactions: snapshots linked by hashes, their reference counts, pushing and pulling (`SnapshotChains`,
  `HashedTexts`, `Transactions`, `Snapshots`, `PushPull`, `InstanceStores`);
- the memory layout that metadata assign to their instances, and arrays that follow symbolic shapes when an
  instance is resized (`Layouts`, `LayoutFields`, `Instances`);
- printing n-dimensional arrays as nested JSON arrays, parsing the text, and scanning the tokens (`JsonTokens`,
  `JsonParser`, `JsonParsing`, `PrintScan`, `JsonExamples`, `JsonRefusals`);
- the search for a mapping between metadata and its memoised evaluation (`Mappings`, `MappingEvaluation`,
  `MappingSearchLimits`, `MappingAborts`, `MappingCost`, `MappingExamples`);
- collections: their hash, and the agreement of their triplestore with their array of relations
  (`CollectionHash`, `CollectionTexts`, `Collections`, `CollectionArrays`, `CollectionMembers`).

Code that updates fields or buffers is a class or a method with loops; each such method is proved equal to a step
on values, and the properties are lemmas about these steps. Code outside of the model (type casts, SHA functions,
the expression evaluator, mapper functions, printing and scanning of one value) enters as function
parameters, and storages as a map.

Where the code does less than its comments say, the code is modelled as it is, with an example that shows the
difference and the condition under which the promise holds:

- A triplestore index value is the position in the batch, not in the array (`triplestore-builtin.c:52` and `:166`):
  `Triples.IndexIsPositionIff`, `Triples.RemoveByIdIff`, `Triples.RemoveByIdExample`. With an index of positions
  that is updated when entries move, it leads to every entry after every run: `RepairedIndex.RunsKeepIndexed`,
  `RepairedIndex.RemoveIndexedRemoves`.
- Ids digest the fields of a triple without separators, so different triples may share one, and only the first of
  them is added: `Triples.SameIdIff`, `Triples.KeptIff`, `Triples.DifferentTripleIsDropped`,
  `Triples.EmptyDatatypeIsDropped`.
- Copies in order 'F' are column-major only for shapes that are palindromes up to dimensions of size one:
  `PropertyCopy.FOrderIsColumnMajorIff`.
- The same-layout shortcut of a cast copies too little when the extreme offsets lie outside of the contiguous
  chunk: `NdCast.ShortcutIsRightIff`, `NdCast.ShortcutExample`.
- One-dimensional iterators return nothing: `Arrays.IteratorIsCompleteIff`; a strided one-dimensional array is made
  continuous without its elements: `Arrays.DLiteArray.MakeContinuous`.
- Negative slice bounds, the rounded element count and strides of the parent: `Slices.NegativeIndexIff`,
  `SliceCounts.CountIsDocumentedIff`, `Slices.SliceReadsParentIff`. A slice of an empty range takes elements: 2:2
  takes two of five, 0:0 all five, and an empty dimension has slices of two: `SliceCounts.EmptyRangeExample`,
  `SliceCounts.EmptyDimensionIff`.
- The mapping search can be stopped by its own assertion, and can miss a mapping when rules are cyclic:
  `MappingExamples.DeadEndAssertionExample`, `MappingExamples.IncompleteExample`; or it finds a dearer one:
  `MappingExamples.DearerExample`. Not so for acyclic rules, provided that no cost is negative and that a plugin with
  an input that cannot be derived fails at the first one that is not given: `MappingSearchLimits.SearchNeverAborts`,
  `MappingSearchLimits.CompleteForAcyclicRules`, `MappingCost.SearchFindsCheapest`. Any other plugin makes the
  assertion fail once harmless rules are added: `MappingAborts.DisorderlyPluginAborts`.
- The text that is hashed for an instance has no separators, null pointers add nothing to it, and the datatype of a
  relation is not in it. The text tells the instance only if it has no strings, no relations and at most one
  reference to an instance, or, without null pointers, no relations and at most one string; an array of two strings
  is already too much. Otherwise a changed ancestor can go unnoticed: `HashedTexts.TextsDifferIff`,
  `SnapshotChains.ArrayExample`, `SnapshotChains.NullExample`, `SnapshotChains.RelationExample`,
  `SnapshotChains.MetadataExample`, `HashedTexts.TamperedChainVerifies`.
- The parent that an instance has cannot be set again, since it is freed first, unless there is another reference to
  it: `Snapshots.SetParentStatus`, `Snapshots.BorrowedParentIsFreed`.
- A shape may give a negative number of members, and the next resize then writes outside of the array or fails an
  assertion: `Instances.RunCrashesIff`, `Instances.NoRunCrashesIff`, `Instances.CrashExample`.
- The JSON parser accepts texts that are not JSON, and some whose tokens are those of no value:
  `JsonExamples.MissingCommaIsScanned`, `JsonExamples.ClosedAgain`, `JsonExamples.KeyInArrayIsNoValue`.
- An error in a shape expression goes unnoticed when another dimension of the same property follows, because each
  evaluation clears the message (`dlite-entity.c:397-400`): `Instances.ErrorsAreNoticedIff`,
  `Instances.UnnoticedErrorExample`.
- Each relation of an instance gets one word, though the table at `dlite-entity.h:71` gives it a whole record:
  `Layouts.RelationsFitIff`.
- The hash of a collection does depend on the order of storage when a label has two different hashes:
  `CollectionHash.HashIgnoresOrderIff`.

## Model

| member | source | states |
|---|---|---|
| Arrays.DLiteArray.constructor | src/dlite-arrays.c:27-49 | a new array has the strides of the C-continuous layout of its shape |
| Arrays.DLiteArray.IsContinuous | src/dlite-arrays.c:102-110 | true exactly for the C-continuous strides |
| Arrays.DLiteArray.Index | src/dlite-arrays.c:116-121 | the address is the base plus the inner product of index and strides |
| Arrays.DLiteArray.Transpose | src/dlite-arrays.c:304-316 | shape and strides reversed over the same memory |
| Arrays.DLiteArray.Reshape | src/dlite-arrays.c:284-295 | succeeds exactly for C-continuous arrays and equal element counts, and keeps the address of the k-th element for every k |
| Arrays.DLiteArray.MakeContinuous | src/dlite-arrays.c:325-351 | C strides afterwards; the value read at every index tuple is unchanged except for strided one-dimensional arrays, which get uninitialised memory |
| Arrays.CreateOrder | src/dlite-arrays.c:57-76 | row-major for 'C', transposed for 'F', an error for any other order |
| Arrays.DLiteArrayIter.Next | src/dlite-arrays.c:168-185 | returns the addresses of the elements in row-major order, then nothing forever |
| Arrays.IteratorIsCompleteIff | src/dlite-arrays.c:146-185 | every index tuple is visited, in lexicographic order, exactly when there are two or more dimensions or no elements |
| Arrays.RowMajorIsLexicographic | src/dlite-arrays.c:176-179 | stepping in row-major order is stepping through index tuples in lexicographic order |
| Slices.Slice | src/dlite-arrays.c:248-274 | an error exactly for a zero step; otherwise first elements, rounded counts, strides and offset of each dimension as computed, wrap of bounds included |
| Slices.BoundsAreDocumented | src/dlite-arrays.c:215-233 | for ordered bounds inside the dimension the first and last element are the documented ones, for both signs of the step |
| Slices.NegativeIndexIff | src/dlite-arrays.c:223-224 | index -k means n-k exactly when n divides 2^64 |
| Slices.NegativeIndexExample | src/dlite-arrays.c:260 | index -1 of a dimension of size 3 is element 0 |
| Slices.RoundedCountIff | src/dlite-arrays.c:269 | for a range with elements the rounded count is the true one exactly under a condition on step and remainder; empty ranges are the subject of SliceCounts |
| Slices.SliceBetweenBoundsIff | src/dlite-arrays.c:266-269 | all selected elements lie between the bounds exactly when the range runs in the direction of the step or has one element |
| Slices.SliceReadsParentIff | src/dlite-arrays.c:253-270 | slice elements are the parent's at first + i*step exactly when the parent has C strides in the sliced dimensions |
| Slices.SliceStaysInside | src/dlite-arrays.c:248-274 | slices of C-continuous arrays by oriented ranges stay inside the array and read the element at first + i*step |
| Slices.SliceShowsRanges | src/dlite-arrays.c:248-274 | for non-empty ranges inside the dimensions of a C-continuous array, in terms of start, stop and step as given: the view has the counts of the ranges and the block of the parent, and its element idx is the parent's element at the first index plus idx steps, which lies in the range |
| Slices.EmptyDimensionExample | src/dlite-arrays.c:261-269 | the default range of an empty dimension counts two elements, the second before the first |
| SliceCounts.CountIsDocumentedIff | src/dlite-arrays.c:215-269 | the count is that of the documented range, empty ones and empty dimensions included, exactly under a condition on start, stop, step and size |
| SliceCounts.EmptyRangeTakesSome | src/dlite-arrays.c:217-266 | with step 1 every empty range takes elements, and 0:0 takes all |
| SliceCounts.EmptyRangeExample | src/dlite-arrays.c:217-266 | 2:2 takes two of five elements, 0:0 takes five |
| SliceCounts.EmptyDimensionIff | src/dlite-arrays.c:261-269 | the whole of an empty dimension has no elements exactly for steps of 5 or more, or -2 or less |
| SliceCounts.BoundsWrap | src/dlite-arrays.c:260-264 | bounds outside of the dimension select what their remainders select |
| NdCast.NdCast | src/dlite-type.c:1426-1560 | different counts fail without a change; else the shortcut copies a chunk, or the k-th element of the destination is the cast of the k-th of the source, up to the first failing cast, and nothing else changes |
| NdCast.ElementWise | src/dlite-type.c:1505-1551 | element-wise casting refines its specification for arbitrary strides and different shapes |
| NdCast.Step | src/dlite-type.c:1526-1550 | the odometer and the pointer move to the next element in row-major order |
| NdCast.TestLayout | src/dlite-type.c:1479-1498 | takes the shortcut exactly for the layouts that the test accepts, including what it reads past the arrays |
| NdCast.ShortcutIsTakenIff | src/dlite-type.c:1480-1498 | the layouts for which the shortcut is taken: same type, size, shape and strides, and for each i some stride that the loop reaches has the size of the first i dimensions, or what lies behind the strides does |
| NdCast.ShortcutIsRightIff | src/dlite-type.c:1500-1503 | copying the chunk is right for all memory contents exactly when the extreme offsets, sums over the dimensions, lie inside the chunk |
| NdCast.InsideChunkIff | src/dlite-type.c:1500-1503 | all slots lie inside the chunk exactly when the extreme offsets do |
| NdCast.ShortcutExample | src/dlite-type.c:1488-1498 | the test accepts a row of two elements that are 100 bytes apart |
| PropertyCopy.CopyProperty | src/dlite-entity.c:2013-2025 | the buffer holds each element at its place in the given order; empty properties and unknown orders are errors |
| PropertyCopy.AssignProperty | src/dlite-entity.c:2065-2081 | the property gets each element from its place in the given order |
| PropertyCopy.PlaceIsBijection | src/dlite-arrays.c:304-316 | reversed C strides visit each position once; the inverse is the place for the reversed shape |
| PropertyCopy.RoundTrip | src/dlite-entity.c:2013-2081 | copying out and assigning back restores every element, for both orders |
| PropertyCopy.BufferRoundTrip | src/dlite-entity.c:2013-2081 | assigning and copying out restores the buffer |
| PropertyCopy.ReversalDeterminesRadices | src/dlite-entity.c:1995-1996 | two radix systems without unit radices that reverse all digits alike are equal |
| PropertyCopy.FOrderIsColumnMajorIff | src/dlite-entity.c:1995-1996 | order 'F' is column-major exactly when the shape without unit dimensions is a palindrome |
| PropertyCopy.FOrderExample | src/dlite-entity.c:1995-1996 | a 2x3 property is not copied in column-major order |
| Triples.MatchersDifferIff | src/triplestore-builtin.c:401-416 | find and find_first differ exactly for an empty datatype and a non-literal object |
| Triples.FirstHitsAgreeIff | src/triplestore-builtin.c:275-290 | when the two searches find the same entry |
| Triples.SearchIsFirst | src/triplestore-builtin.c:275-290 | both searches give the first live entry from a position on that has all given fields; for find() an empty datatype also stands for a missing one |
| Triples.ContentsAre | src/triplestore-builtin.c:44-58 | the live entries are exactly the entries of the map, and their number is its size |
| Triples.AddOneInserts | src/triplestore-builtin.c:150-170 | adding is insert-if-absent and keeps the index keys equal to the live ids |
| Triples.AddFromKeeps | src/triplestore-builtin.c:149-170 | a batch keeps the invariant and only appends |
| Triples.BatchStops | src/triplestore-builtin.c:150-158 | what comes after the first incomplete triple of a batch is not added |
| Triples.SameIdIff | src/triple.c:100-122 | triples are equal exactly if their ids are and their fields have the same lengths, presence of the datatype included; only collisions of the digest on the two texts are excluded |
| Triples.FirstOneStays | src/triplestore-builtin.c:149-170 | of all triples with one id the first is the one in the store |
| Triples.KeptIff | src/triplestore-builtin.c:149-170 | a triple of a batch is in the store afterwards exactly if the first triple with its id has fields of the same lengths |
| Triples.EmptyDatatypeIsDropped | src/triple.c:113-118 | a triple with an empty datatype is dropped if there is one without a datatype |
| Triples.DifferentTripleIsDropped | src/triplestore-builtin.c:156-168 | a different triple with the same concatenated fields is not added |
| Triples.IndexIsPositionIff | src/triplestore-builtin.c:166 | a new entry is indexed by its position exactly when as many triples were skipped as there were before |
| Triples.RemovalKeepsOthers | src/triplestore-builtin.c:221-236 | after a removal, lazy or not, the map has exactly those triples that differ from the pattern in some given field: subject, predicate, object or datatype |
| Triples.RemovalRefinesMap | src/triplestore-builtin.c:221-236 | removal by pattern deletes exactly the matching triples from the map, lazily or not |
| Triples.LazyRemovalInPlace | src/triplestore-builtin.c:186-190 | a lazy removal only takes the ids of the matching entries |
| Triples.RemoveByIdIff | src/triplestore-builtin.c:208-214 | removing by id removes that triple and no other exactly when the index leads to it |
| Triples.RemoveByIdExample | src/triplestore-builtin.c:208-214 | of two triples added one after the other, removing the second by id removes the first |
| RepairedIndex.RunsKeepIndexed | src/triplestore-builtin.c:52-53 | for a store whose index follows the entries, as its comment says: after every run the index leads to the entry for every id |
| RepairedIndex.RemoveIndexedRemoves | src/triplestore-builtin.c:208-214 | with such an index removal by id removes exactly the triple with that id |
| RepairedIndex.RunsSame | src/triplestore-builtin.c:127-339 | apart from removals by id such a store has the same entries at the same positions as the one in the source, after every run |
| Triples.CompactKeeps | src/triplestore-builtin.c:321-338 | compaction leaves no pending removals and keeps the map |
| TripleStores.TripleStore.NoPendingRemovals | src/triplestore-builtin.c:193 | without iterators all used entries are live, and their number is that of the map |
| TripleStores.TripleStore.Reserve | src/triplestore-builtin.c:132-144 | used slots never exceed allocated slots; entries are kept |
| TripleStores.TripleStore.AddTriples | src/triplestore-builtin.c:127-173 | adds the batch up to the first incomplete triple |
| TripleStores.TripleStore.RemoveByIndex | src/triplestore-builtin.c:177-201 | removes one live entry, lazily or by moving the last one |
| TripleStores.TripleStore.RemoveById | src/triplestore-builtin.c:208-214 | removes what the index names |
| TripleStores.TripleStore.Remove | src/triplestore-builtin.c:221-236 | the backward loop leaves exactly the triples that differ from the pattern in a given field, and returns the number of the others |
| TripleStores.TripleStore.Clear | src/triplestore-builtin.c:243-255 | empties the store; running iterators stay counted |
| TripleStores.TripleStore.Free | src/triplestore-builtin.c:88-96 | releases the store, or leaves that to the last iterator |
| TripleStores.TripleStore.FindFirst | src/triplestore-builtin.c:275-290 | the first live triple that has all given fields; none only if every live one differs in some |
| TripleStores.TripleStore.CompactTriples | src/triplestore-builtin.c:321-338 | the two loops compute the compaction |
| TripleStores.TripleState.constructor | src/triplestore-builtin.c:297-302 | a new iterator at the start, counted by the store |
| TripleStores.TripleState.Deinit | src/triplestore-builtin.c:308-339 | the last iterator compacts the store, or frees it if that is due |
| TripleStores.TripleState.Next | src/triplestore-builtin.c:355-363 | the next live entry |
| TripleStores.TripleState.Find | src/triplestore-builtin.c:401-416 | the next live match |
| IteratorRuns.RunsKeepValid | src/triplestore-builtin.c:127-339 | the invariant of the store holds after every run of adds, removals and iterators |
| IteratorRuns.IteratorIsStable | src/triplestore-builtin.c:297-416 | in every run an iterator that reaches the end has returned each entry at most once, only while live, and every match that is still live |
| IteratorRuns.IteratorPasses | src/triplestore-builtin.c:401-416 | the same for an iterator under way: what it has passed it has returned |
| Mappings.MappingSearch.CreateRec | src/dlite-mapping.c:47-151 | the recursion on the shared sets terminates, computes the specified search and restores the visited set |
| Mappings.SearchIsSound | src/dlite-mapping.c:47-188 | a result is an acyclic derivation of the target from the inputs by registered plugins, with costs added up, equal URIs being the same sub-mapping |
| Mappings.CreateIsSound | src/dlite-mapping.c:119-150 | the table of created mappings stays closed under sub-mappings, and entries are written once |
| MappingSearchLimits.RankPicksFirstCheapest | src/dlite-mapping.c:111-118 | the first of the cheapest usable plugins is chosen, none only if none is usable |
| MappingSearchLimits.CompleteForAcyclicRules | src/dlite-mapping.c:68-119 | for acyclic orderly rules a mapping is found exactly if there is a derivation |
| MappingSearchLimits.CompleteUnlessAborted | src/dlite-mapping.c:68-119 | the same for all acyclic rules, if the assertions hold |
| MappingSearchLimits.SearchNeverAborts | src/dlite-mapping.c:58-65 | the assertions hold for acyclic rules without negative costs, if in each plugin the first input that cannot be derived is the first that is not given |
| MappingSearchLimits.SimpleSearchNeverAborts | src/dlite-mapping.c:58-65 | they also hold for cyclic rules in which every plugin needs at most one URI that is not given |
| MappingAborts.DisorderlyPluginAborts | src/dlite-mapping.c:62 | every plugin that breaks this condition makes the assertion fail in an extension of the rules that derives the same URIs |
| MappingCost.SearchFindsCheapest | src/dlite-mapping.c:68-118 | for acyclic rules no derivation costs less than the mapping that is found |
| MappingExamples.DeadEndAssertionExample | src/dlite-mapping.c:62 | the assertion stops a search that would succeed without it |
| MappingExamples.IncompleteExample | src/dlite-mapping.c:74-82 | with cyclic rules no mapping is found although there is a derivation |
| MappingExamples.DearerExample | src/dlite-mapping.c:74-118 | with cyclic rules a mapping of any cost is found although there is one at no cost |
| MappingEvaluation.MappingRun.Map | src/dlite-mapping.c:266-300 | evaluation on the shared table of instances |
| MappingEvaluation.EvalAppliesPlugin | src/dlite-mapping.c:276-290 | the value of a derivation is that of the plugin's function, applied in order to the given instances and the values of the derivations of its other inputs |
| MappingEvaluation.MemoisedEvaluationIsDirect | src/dlite-mapping.c:158-300 | memoised evaluation of a returned mapping, which is one to the output, equals evaluation of the tree; for an output that is given it is the given instance |
| MappingEvaluation.ResultIsRemembered | src/dlite-mapping.c:272-294 | what has been created is looked up the next time, and nothing else changes |
| SnapshotChains.VerifyTransactionIff | src/dlite-entity.c:2494-2536 | verification succeeds exactly when every stored hash matches its ancestor; otherwise its status is that of the nearest broken link |
| SnapshotChains.TamperEvident | src/dlite-entity.c:2138-2185 | verifying chains whose heads store the same parent hash have the same ancestors |
| SnapshotChains.StreamDeterminesContent | src/dlite-entity.c:2155-2180 | instances with the same hashed text are equal exactly if their elements have the same structure: sizes, null pointers, and what is not hashed |
| SnapshotChains.StreamTellsMetadata | src/dlite-entity.c:2155-2159 | instances with the same hashed text, of whatever metadata, have the same parent, and the same metadata exactly if the URIs have the same length |
| HashedTexts.TextsDifferIff | src/dlite-entity.c:2155-2180 | the instances of some metadata have different texts exactly if for all dimensions no element is blurred and at most one is loose, with or without null pointers |
| HashedTexts.TextsAreTamperEvident | src/dlite-entity.c:2138-2185 | chains of hashed texts that verify and share the parent hash of the head are the same to any depth, metadata included, where URIs have the same lengths and the metadata and dimensions of one chain meet this condition |
| HashedTexts.TamperedChainVerifies | src/dlite-entity.c:2494-2536 | for all metadata and dimensions that do not meet it there are two chains that verify with the same head and different parents |
| SnapshotChains.StringsExample | src/dlite-type.c:1275-1280 | two instances with different strings have the same hashed text |
| SnapshotChains.ArrayExample | src/dlite-entity.c:2168-2172 | so have two instances with one array of strings |
| SnapshotChains.NullExample | src/dlite-type.c:1275-1280 | a null and an empty string have the same text |
| SnapshotChains.RelationExample | src/dlite-type.c:1325-1331 | relations with and without datatype have the same text |
| SnapshotChains.MetadataExample | src/dlite-entity.c:2159 | with URIs of different lengths a character can move between the URI and a string |
| Transactions.SaveKeeps | src/dlite-entity.c:2355 | saving a snapshot whose parent is stored keeps the storage closed under ancestors, and changes nothing that can be retrieved |
| Transactions.ValidWorldsVerify | src/dlite-entity.c:2533-2536 | while the invariant holds every chain verifies |
| Transactions.MutableIsHead | src/dlite-entity.c:2226-2227 | a mutable instance is nobody's parent and not stored |
| Snapshots.DecRefShrinks | src/dlite-entity.c:627-638 | releasing a reference frees instances only along the chain and never one that is held |
| Snapshots.DecRefKeepsReachable | src/dlite-entity.c:557-638 | an instance remains exactly if it is held or a remaining one points to it |
| Snapshots.SetParentStatus | src/dlite-entity.c:2401-2426 | the new parent is freed before it is used exactly if it is an ancestor and there is one reference to it and to each instance between; else the call fails, without a change, exactly for an immutable instance or a mutable parent |
| Snapshots.DecRefFreesIff | src/dlite-entity.c:557-638 | releasing a reference frees an instance exactly if there is one reference to each instance from the released one up to it |
| Snapshots.BorrowedParentIsFreed | src/dlite-entity.c:2411-2426 | the parent that a snapshot has just set is freed when it is set again |
| Snapshots.SetParentSetsLink | src/dlite-entity.c:2411-2426 | sets link and hash, conserves references, and keeps all that is held |
| Snapshots.SnapshotAddsOne | src/dlite-entity.c:2236-2269 | a snapshot adds one immutable node with the head's content and former parent, links the head to it, and leaves all other nodes and counts as they were |
| Snapshots.RunShowsHistory | src/dlite-entity.c:2236-2269 | after any run of changes and snapshots the chain shows the head's values at each snapshot, then the former chain |
| Snapshots.RunVerifies | src/dlite-entity.c:2236-2269 | after any such run the chain verifies |
| PushPull.PulledKeepsView | src/dlite-entity.c:2319-2326 | pulling changes nothing that can be retrieved |
| PushPull.PushKeepsView | src/dlite-entity.c:2345-2359 | pushing changes nothing that can be retrieved, whether it fails or not |
| PushPull.EverySaveKeepsClosed | src/dlite-entity.c:2339-2340 | after every single save the storage is closed under ancestors, also when a later save fails |
| PushPull.PushStatus | src/dlite-entity.c:2342-2343 | exactly the ancestors beyond number n are saved; a positive status is the number of the one that failed |
| PushPull.PushedChainIsSame | src/dlite-entity.c:2309-2359 | after a complete push all ancestors are stored, and pulling gives the same chain |
| InstanceStores.InstanceStore.SetData | src/dlite-entity.c:1325-1327 | refused exactly for immutable instances |
| InstanceStores.InstanceStore.Freeze | src/dlite-entity.c:2203-2206 | marks the instance and changes nothing else |
| InstanceStores.InstanceStore.IncRef | src/dlite-entity.c:613-620 | one more reference, returned as the new count |
| InstanceStores.InstanceStore.DecRef | src/dlite-entity.c:627-638 | gives up a reference and frees along the chain |
| InstanceStores.InstanceStore.SetParent | src/dlite-entity.c:2401-2426 | in place, the step of the same name; crashes exactly if the parent does not survive the release of the former one |
| InstanceStores.InstanceStore.Copy | src/dlite-entity.c:1906-1929 | a mutable copy that shares the parent |
| InstanceStores.InstanceStore.TakeSnapshot | src/dlite-entity.c:2236-2269 | in place, the snapshot step |
| InstanceStores.InstanceStore.GetSnapshot | src/dlite-entity.c:2282-2301 | the n-th ancestor of the retrievable chain, loaded as needed; none for negative n or a shorter chain; storage and held references stay |
| InstanceStores.InstanceStore.PullSnapshot | src/dlite-entity.c:2309-2330 | the same from a storage with support for transactions |
| InstanceStores.InstanceStore.PushSnapshot | src/dlite-entity.c:2345-2359 | in place, the push step; 1 without a change if transactions are not supported |
| Layouts.PaddingAlignsIff | src/dlite-type.c:1366-1371 | the bit mask aligns all offsets exactly for powers of two |
| Layouts.PaddingAligns | src/dlite-type.h:82-83 | the padding leads to the first aligned offset |
| Layouts.AlignmentIsSound | src/dlite-type.c:1345-1360 | known alignments are powers of two and divide the size |
| LayoutFields.AlignmentIsNatural | src/dlite-type.c:63-97 | the types and sizes that are known, and their alignments: numbers by their size, pointers and records 8, bytes 1 |
| Layouts.LayoutIsPacked | src/dlite-entity.c:2670-2728 | for all metadata the parts of an instance are in order, aligned, as close as alignment allows, and inside the allocated size |
| Layouts.PartsAreDisjoint | src/dlite-entity.c:316-329 | any two parts are disjoint, aligned and inside the allocated size |
| LayoutFields.FieldsAreNext | src/dlite-entity.c:2673-2691 | each property begins at the first multiple of its alignment, 8 for pointers, after the field before it |
| LayoutFields.FieldsAreDisjoint | src/dlite-entity.c:2683-2694 | each pointer or value ends before the next property and before the relations |
| LayoutFields.RestIsNext | src/dlite-entity.c:2699-2728 | relations, property dimensions and indices follow, each at the next word and inside the size |
| LayoutFields.DimWordsFit | src/dlite-entity.h:372-378 | the word of every property dimension lies in its part of the instance |
| Layouts.RelationsFitIff | src/dlite-entity.h:71 | whole relation records fit exactly when there are none |
| Layouts.DimSlotsAreDisjoint | src/dlite-entity.h:372-378 | the dimensions of properties found through the prefix sums have distinct existing slots |
| Layouts.Metadata.Init | src/dlite-entity.c:2653-2728 | computes the layout and the prefix sums; fails exactly for a property without known alignment |
| Instances.EvaluatedAt | src/dlite-entity.c:393-399 | through the index each property finds the values of its own expressions |
| Instances.ExactIff | src/dlite-entity.h:372-378 | all property dimensions found through the index are the values of their expressions exactly if all of these can be evaluated |
| Instances.ErrorsAreNoticedIff | src/dlite-entity.c:397-400 | for given numbers of dimensions success means exact dimensions, whatever the expressions, exactly if no property has more than one dimension |
| Instances.UnnoticedErrorExample | src/utils/infixcalc.c:288 | an error in the first of two dimensions is not reported |
| Instances.IntProductIsProduct | src/dlite-entity.c:1803-1805 | the loops compute the number of elements of the shape |
| Instances.IntProductOfParts | src/dlite-entity.c:1803-1805 | every dimension is a factor, negative ones too |
| Instances.LengthIsProductIff | src/dlite-entity.c:1817-1821 | array length is the product of the dimensions exactly if that is not negative and fits in an int |
| Instances.RegularMembers | src/dlite-entity.c:1801-1806 | for regular shapes the int computation gives the number of elements of the shape |
| Instances.RunKeepsMembers | src/dlite-entity.c:1769-1862 | after any run of resizes and freezes that does not crash, refused and failed resizes among them, a member has its first value if the array was never too short for it, else zero |
| Instances.RunKeepsLengths | src/dlite-entity.c:1769-1862 | array lengths agree with the dimensions after every such run, and runs of an immutable instance neither crash nor change it |
| Instances.RunIndexesMembers | src/dlite-entity.c:465-479 | after every run of a new instance that does not crash, the members of an array with regular dimensions are those of the index tuples of its shape, one for each |
| Instances.RunCrashesIff | src/dlite-entity.c:1818-1844 | a run writes outside of an array or fails the assertion exactly if some accepted resize changes a negative number of members, as shapes and sizes tell |
| Instances.NoRunCrashesIff | src/dlite-entity.c:1769-1862 | no run of a new instance crashes exactly if its numbers of members are never negative, or do not depend on the dimensions where they are |
| Instances.CrashExample | src/dlite-entity.c:1836 | the shape N-2 crashes with the sizes 5, 1 and 5, but not with 5, 1 and 1 |
| Instances.ResizesKeepPrefix | src/dlite-entity.c:1811-1845 | the same for the lengths that one array goes through |
| Instances.Instance.Initialise | src/dlite-entity.c:456-479 | dimensions, evaluated dimensions and zeroed arrays in agreement, or failure |
| Instances.Instance.Evaluate | src/dlite-entity.c:378-408 | evaluates all shapes, or reports an error |
| Instances.Instance.SetDimensionSizes | src/dlite-entity.c:1769-1862 | crashes exactly if a negative number of members changes; else fails exactly if immutable, metadata or not evaluable, and then changes nothing; else all dimensions, evaluated dimensions and arrays agree, members are kept and new ones zero |
| JsonTokens.Count | src/utils/jsmnx.c:90-114 | the number of tokens inside of a value, objects included |
| JsonParser.ParseTokens | src/utils/jsmn.h:268-452 | the loop over the text computes the specified tokens, and fails for an invalid or incomplete text |
| JsonParsing.ParseSpelled | src/utils/jsmn.h:268-452 | every array or object that is spelled as JSON, with any blanks, nesting, keys and escapes, is accepted, with the expected kinds, positions, sizes and parents |
| JsonParsing.TokensOfSpelling | src/utils/jsmn.h:135-452 | these tokens with their texts are those of the value that is spelled |
| JsonParsing.ValueIsWellFormed | src/utils/jsmn.h:293-298 | keys of objects are strings with one value, and only arrays and objects have items |
| PrintScan.ScannedIff | src/dlite-entity.c:3203-3228 | scanning succeeds exactly if the nesting has the sizes of the shape and each innermost value can be scanned |
| PrintScan.ScannedAt | src/dlite-entity.c:3203-3228 | the member of an index tuple comes from the value that the tuple leads to |
| PrintScan.ScanDim | src/dlite-entity.c:3203-3228 | writes the members in order, ends on the last token of the array, and touches nothing outside |
| PrintScan.Delimiters | src/dlite-entity.c:3092-3094 | the two styles have the brackets, commas and blanks of the source |
| PrintScan.TextIsSpelled | src/dlite-entity.c:3085-3118 | the text that is printed is legal JSON for the nested array, members padded with any blanks |
| PrintScan.ScanPrinted | src/dlite-entity.c:3085-3228 | the parser accepts the text that is printed, its tokens are those of the nested array, and scanning that gives the data |
| PrintScan.ScanProperty | src/dlite-entity.c:3379-3396 | parses the text and scans the first value in it: succeeds exactly if both do, ends on its last token, and touches nothing else |
| PrintScan.PrintAndScan | src/dlite-entity.c:3085-3396 | printing into a buffer, enlarged if need be, and scanning what is in it succeeds, ends on the last token and gives the data, in both styles |
| JsonExamples.MissingCommaIsScanned | src/utils/jsmn.h:362-440 | the text [1 2] has the tokens of the array of 1 and 2 |
| JsonExamples.ClosedAgain | src/utils/jsmn.h:318-346 | a closing bracket after a colon, with everything closed, is ignored if it is that of the outermost array and refused otherwise |
| JsonExamples.KeyInArrayIsNoValue | src/utils/jsmn.h:375-390 | an array with a key is accepted, but no value has its tokens |
| JsonRefusals.UnclosedIsRefused | src/utils/jsmn.h:443-450 | every array or object without its closing bracket is refused |
| JsonRefusals.WrongBracketIsRefused | src/utils/jsmn.h:318-340 | so is one that is closed by the other kind of bracket |
| JsonRefusals.ExtraBracketIsRefused | src/utils/jsmn.h:318-334 | the text of an array or object with a further closing bracket is refused |
| PrintScan.WriteDim | src/dlite-entity.c:3085-3118 | the text as far as it fits, its full length returned |
| PrintScan.PutPut | src/dlite-entity.c:3065-3066 | writing piece by piece into a bounded buffer is writing all at once |
| PrintScan.PutAt | src/dlite-entity.c:3129-3130 | what each character of the buffer is afterwards; nothing outside of the n characters changes |
| PrintScan.PrintToBuffer | src/dlite-entity.c:3164-3186 | the whole text ends up in the buffer, enlarged if need be |
| CollectionHash.CmpTripleZeroIff | src/dlite-collection.c:62-72 | triples compare equal exactly if they are equal |
| CollectionHash.CmpTripleFlips | src/dlite-collection.c:60-72 | the comparison is antisymmetric |
| CollectionHash.CmpTripleIsTransitive | src/dlite-collection.c:62-72 | the comparison is transitive |
| CollectionHash.CmpTripleIsLexicographic | src/dlite-collection.c:62-72 | by subject, predicate, object and datatype, each by its first different character, missing datatypes first |
| CollectionHash.SortedIsUnique | src/dlite-collection.c:115 | there is only one sorted order |
| CollectionHash.HashIgnoresOrderIff | src/dlite-collection.c:107-140 | the hash is the same for all orders of storage exactly if the hashes stored for each label agree |
| CollectionTexts.TextIsConcatenation | src/dlite-collection.c:115-139 | the text is that of all fields of the hashed relations, one after the other |
| CollectionTexts.ExpansionHasRelations | src/dlite-collection.c:115-139 | these are all sorted relations in order, but those that tell a hash |
| CollectionTexts.HashesGoBefore | src/dlite-collection.c:118-137 | and before each relation to an instance one that tells its hash, stored or computed |
| CollectionTexts.TextTellsRelations | src/dlite-collection.c:115-139 | equal texts mean equal hashed relations exactly if these have fields of the same sizes |
| CollectionTexts.PlainTextTells | src/dlite-collection.c:115-139 | without instances the text is that of the fields of the sorted relations, and equal texts mean equal relations exactly if these have the same sizes |
| Collections.SameContentsSameText | src/dlite-collection.c:107-140 | the hash is a function of the map that the store stands for |
| Collections.CompactionKeepsText | src/triplestore-builtin.c:321-338 | compaction does not change the hash |
| Collections.RemovalTextIsSame | src/triplestore-builtin.c:177-201 | lazy and immediate removal give the same hash |
| Collections.FindsFirstHash | src/dlite-collection.c:119-121 | the search finds the hash stored first for a label |
| Collections.LoadSaved | src/dlite-collection.c:161-212 | loading saved relations gives the same ordered store, with an index of positions |
| CollectionArrays.Collection.SyncDimension | src/dlite-entity.c:1686-1706 | dimension and array length get the length of the store, or nothing changes if immutable |
| CollectionArrays.Collection.SaveProp | src/dlite-collection.c:190-212 | the array gets exactly the live triples in order; the store is unchanged |
| CollectionArrays.Collection.LoadProp | src/dlite-collection.c:161-187 | the store is filled from the array; the status tells whether all referred instances are found |
| CollectionArrays.Collection.GetHash | src/dlite-collection.c:85-149 | the digest of the sorted relations, an error exactly if an instance without a stored hash is missing |
| CollectionArrays.Collection.AddNew | src/dlite-collection.c:484-497 | refused exactly if the label has an `_is-a` `Instance` relation, else its three relations are added |
| CollectionArrays.Collection.RemoveMember | src/dlite-collection.c:516-548 | removes the relations of the label and finds the instance to release, or changes nothing |
| CollectionMembers.RemoveUndoesAdd | src/dlite-collection.c:484-548 | removing an added member restores the relations exactly if none was about its label before |
| CollectionMembers.AddedIsFound | src/dlite-collection.c:556-575 | looking up a member that has been added gives its uuid and metadata, if the label had no such relation before |

## Left out

- Storage plugins, plugin loading, search paths, files and streams, bindings, tools and globals: a storage is a map that keeps instances as they were saved, with parent links and the immutable flag; the storage plugins in the repository do not keep these yet.
- `triplestore-redland.c`, `dlite-json.c`, `dlite-bson.c`, SHA functions, random numbers and UUIDs: identities of snapshots are supposed to be new.
- The counting pass of the JSON parser (`jsmn_required_tokens()`), which only finds the number of tokens to allocate, and its error codes; a text ends at its NUL.
- PrintScan.ScanProperty: properties with dimensions; a single value goes to `dlite_type_scan()`, a parameter. The tokens are supposed to begin with those of a value, which also holds for accepted texts such as `[1 2]`; scanning the tokens of no value (`JsonExamples.KeyInArrayIsNoValue`) is not modelled.
- `dlite_type_copy_cast()`, printing and scanning of single values, and values of allocated types: parameters.
- Allocation failure and integer overflow, except in slices and in member counts of arrays; creation of arrays of 2^31 or more members is taken to fail.
- `triplestore_poll()`, `triplestore_get()`, `triplestore_reset_state()`, the language tag filter that only the comment of `triplestore_find()` mentions, and memory that `triplestore_clear()` leaks.
- Reference counts in `dlite_mapping_map()` and freeing of shared sub-mappings.
- Reference counts of the instances in a collection, which also leak in `dlite_collection_gethash()`.
- `dlite_copy_to_flat()`, `dlite_copy_to_nested()`, hotlist, behavior table, error codes and code generation: easy members.
- Custom hash functions, setdim and getdim hooks other than those of collections, and metadata instances as heads of transactions.
- NdCast.NdCast: for no elements the source still casts one, which the model keeps; memory that the layout test reads past the arrays is a parameter.
- SnapshotChains.TamperEvident: assumes a digest without collisions on the two chains; for `HashedTexts.TextsAreTamperEvident` it is enough that the hash function has none on the texts.
- HashedTexts.TextsDifferIff: compares instances of the same metadata, both with or both without a parent; identifiers and hashes have fixed lengths, as in the source, and identifiers may be any texts of that length. Dimensions and properties as elements, which only metadata have, are not modelled.
- SliceCounts.CountIsDocumentedIff: bounds inside the dimension, negative ones where they mean what the documentation says; `SliceCounts.BoundsWrap` reduces all others to these.
- InstanceStores.InstanceStore.SetParent: nothing is said about what happens after a parent that is freed already is used.
- Instances.Instance.SetDimensionSizes: arrays are values, not memory blocks; nothing is said about what happens after a crash.
- MappingSearchLimits.SearchNeverAborts: a rule set that breaks the condition need not fail itself, since that depends on the order of plugins; `MappingAborts.DisorderlyPluginAborts` shows an extension that does.
- CollectionArrays.Collection.SaveProp: an immutable collection whose store has another length fails an assertion in the source, and is excluded.
- CollectionArrays.Collection.RemoveMember: a label without a uuid relation fails an assertion in the source, and is excluded.
- Layouts.AlignmentIsSound: the table is that of a 64 bit platform without 80 and 96 bit floats.
