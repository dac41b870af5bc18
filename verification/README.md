# Verified model of the DEX query engine

This project models the part of droidasc-mcp that answers queries over DEX files, and the bounded
result machinery around it, in Dafny 4.11. Nearly every piece of that code pairs a fast or bounded
form with a simple one it must equal. The simple form is written here as a function, the fast form
as a method or a class in the shape of the source, and the theorems say that they agree, exactly
when they agree, or what the bounded answer may claim.

`dafny verify dfyconfig.toml` checks everything. The files, in the order they build on each other:

| file | models |
|---|---|
| `bytes.dfy`, `sorting.dfy`, `json_text.dfy` | little-endian reads; lexicographic order and the stable sort; JSON values with the exact text Python's encoder writes for them |
| `dex_cursor.dfy` | the simple instruction cursor, the C step, the chunked scanner and its resume loop |
| `class_data.dfy`, `dex_selection.dfy` | ULEB128, class members with bitsets, and the counting selection pass with its stamp table |
| `method_order.dfy`, `method_selection.dfy`, `references.dfy`, `reference_pass.dfy`, `tangled_query.dfy` | ordered methods, exactly when selecting first changes their order, and selecting, sorting and rescanning against one ordered pass |
| `mutf8.dfy`, `pool_matcher.dfy` | string decoding in two forms, and the pool matcher |
| `call_graph.dfy`, `call_graph_truth.dfy`, `call_graph_order.dfy`, `call_graph_answer.dfy` | the bounded breadth-first query, what it may claim, when the order of its adjacencies shows, and its answer |
| `call_sites.dfy`, `frontier_scan.dfy`, `frontier_run.dfy` | the orders in which call sites are come upon, the rescans that stand in for an index, and a whole run over them |
| `frontier_graph.dfy`, `call_graph_query.dfy`, `tangled_call_graph.dfy` | the rescanning source and the query as they run, and an input that tells the sources apart |
| `reference_groups.dfy`, `reference_cursor.dfy`, `grouped_references.dfy`, `reference_page.dfy` | grouping, continuations, grouped pages and flat pages under byte limits |
| `sorted_page.dfy`, `class_directory.dfy` | bounded sorted pages, and the class directory with its CESU-8 keys |
| `page_cache.dfy`, `prefetch.dfy`, `durable_index.dfy` | caches and a producer thread as systems of steps, with interleavings and crashes |
| `preparation_zip.dfy` | the central directory of an archive and the extents of its members |

## What is proved, in short

* **Scanning.** The C step accepts exactly what the simple cursor accepts, and the 1024-row chunks
  joined over continuations are the naive filter, whatever the data. The pass that counts, selects and
  rescans rejects what one ordered pass over every instruction rejects, as far as the bytes of classes and
  instructions decide it, and gives the same totals and counts, on every input. Its hits and dynamic
  sites are those of one pass if and only if no two methods that show any change places. Methods of a class can
  change places when the string pool holds one name twice: methods are grouped by name index, groups of one text
  stand in the order of first use, and a selection may leave the first use out. `TwoPassesDiffer` gives the bytes of
  a method table, a class and its code on which that happens; `SelectThenOrderExactly` says which classes are safe
  from every selection.
* **Call graph.** However a budget ends the traversal, and in whatever order the source hands over each cut
  adjacency, every listed depth is the true distance in the whole graph. An answer that claims to be complete
  within its depth lists exactly the methods within it and exactly the call sites of those closer, each once. The
  cut at one more than the edge limit hides nothing. A query over the rescanning source, batches, halving, charges and
  giving up included, is a function of the input, the query and the budget (`Rescanned`), and the running query
  computes it. The source orders only the methods it selects, so callers of one class may change places; when no
  budget stops the traversal over the index, the two answers are equal if and only if that happens to no callers that
  may still show, in the scan for the frontier of any method taken below the depth (`AgreesExactly`). Under any
  budgets, queries that follow calls forth alone are answered as over the index, and so are all queries when no callers
  change places; `TangledAnswers` gives an input and a query whose two answers name different methods. The source
  gives up only when a method that is asked for and not at hand does not fit its budget alone beside what is listed,
  or in the end the dynamic sites of the listed methods do not fit beside the frontier at hand (`GivesUp`). One
  observation: the diagnostics share the byte budget, so a complete traversal whose diagnostics do not fit is reported
  as incomplete (`CompleteClaim` says exactly when).
* **Grouped references.** The running byte count is the length of the encoded groups; overhead and
  groups are the length of the encoded response, up to the one byte by which the shorter name of the
  other limit differs; so a page with a site never fails its final check, and a refused row would not
  have fitted. Following the continuations returns the flat stream, whatever the limits and the chunks.
* **Pages and caches.** Following the next offsets of flat pages visits every row once; a page names the wrong next
  offset exactly when it collects to another limit than it names and rows are left, which takes a query without a limit
  and pages of more than a hundred rows. The bounded heap is sort and slice; byte order of class keys is UTF-16 order, and a
  key gives its name back exactly when no surrogate pair is split in two code points; cache hits are current
  in every interleaving; no byte is lost in a prefetch; a durable cache stays within its budget
  wherever it is cut off, as long as the file copied has not grown since it was measured (by what it has
  grown otherwise), over any run of its operations, and what was published comes back to every look for it within the
  time to live; ZIP members that may be opened are
  disjoint, and share a byte with another entry's local header exactly when they start inside it, of which the
  directory check refuses equal starts alone.

## Model

| member | source | states |
|---|---|---|
| DexCursor.EmitIsExact | src/droidasc_mcp/native_scan.py:181-197 | the naive filter yields exactly the special instructions, in order, with position, address and opcode, and its skip counts sum to the number of instructions |
| DexCursor.InstructionsTile | src/droidasc_mcp/native_dex.py:426-460 | an accepted walk tiles the code: each instruction starts where the last stopped, from the first byte to the end |
| DexCursor.DecodeRefinesCursor | src/droidasc_mcp/_dexscan.c:66-104 | the C step accepts exactly what the simple cursor accepts with its operand in the pool, moves equally far and marks the same instructions |
| DexCursor.DecodeStays | src/droidasc_mcp/_dexscan.c:66-104 | an accepted step stays inside the file, holds its operand, and moves on |
| DexCursor.ScanFromIsNaive | src/droidasc_mcp/_dexscan.c:106-168 | scanning on from any instruction boundary is walking from there with the simple cursor and filtering |
| DexCursor.Scan | src/droidasc_mcp/_dexscan.c:106-168 | one call returns all rows, or 1024 of them and a marker at a later boundary whose rows complete them; it rejects exactly when the whole scan does |
| DexCursor.Accelerated | src/droidasc_mcp/native_scan.py:153-175 | resuming until no marker comes back ends, and gives exactly the naive scan of the code item, rejections included |
| ClassData.ReadLeb | src/droidasc_mcp/_dexscan.c:170-182 | the shifting loop reads the value the recursive definition of the format gives, or rejects when it does |
| ClassData.LebRoundTrip | src/droidasc_mcp/native_dex.py:174-189 | reading the shortest form of any 32-bit value gives the value and stops right behind it, whatever follows |
| ClassData.MembersAreDistinct | src/droidasc_mcp/native_dex.py:303-336 | in an accepted class no member occurs twice and every index lies in its pool |
| ClassData.Members | src/droidasc_mcp/_dexscan.c:184-241 | the decoder with two bitsets and checked unsigned indices gives the field and method lists of the set-based decoder, or rejects exactly when it does |
| DexSelection.FoundFromIsWalk | src/droidasc_mcp/_dexscan.c:243-275 | counting and selecting instruction by instruction is a statement about the walk of the whole method |
| DexSelection.ClassSelection.SelectMethod | src/droidasc_mcp/_dexscan.c:243-275 | rejects, keeps or drops a method, and adds to the counters, exactly as the walk of the method says |
| DexSelection.ClassSelection.NextGeneration | src/droidasc_mcp/_dexscan.c:427-439 | no slot carries the next generation, also when the 32-bit number wraps and the table is cleared |
| DexSelection.ClassSelection.SelectClassRows | src/droidasc_mcp/_dexscan.c:328-395 | one class with the shared stamp table is accepted exactly when the set-based decoder accepts it, with the same selection and counts |
| DexSelection.ClassSelection.SelectClasses | src/droidasc_mcp/_dexscan.c:415-470 | over any sequence of classes the shared table acts as a fresh set for each |
| Sorting.SortSorts | src/droidasc_mcp/native_dex.py:338-358 | the sort is ordered and a permutation |
| Sorting.SortFilter | src/droidasc_mcp/native_dex.py:567-640 | a stable sort commutes with any selection |
| Sorting.SortIgnoresOrder | src/droidasc_mcp/native_dex.py:338-358 | rearranged lists sort alike when no tie changes places |
| MethodOrder.OrderMethods | src/droidasc_mcp/native_dex.py:338-358 | the dictionary of groups, its keys sorted by name and only overloaded groups sorted by prototype, lists every method once, by the text of the name and by prototype among the methods of one name index |
| MethodOrder.OrderedIsSorted | src/droidasc_mcp/native_dex.py:338-358 | so does the order as a function of the methods of a class, which decides ties between name indices of one text by first use |
| MethodSelection.SeenAlike | src/droidasc_mcp/native_dex.py:338-358 | ordering a selection of a class, or all of it, shows any part of the selection in the same order, if and only if no two methods shown have name indices of one text whose first uses the selection reverses |
| MethodSelection.SelectThenOrderFor | src/droidasc_mcp/native_dex.py:338-358 | for one selection: ordering the selected methods is selecting from the ordered ones, if and only if no two of them change places so |
| MethodSelection.SelectThenOrderExactly | src/droidasc_mcp/native_dex.py:338-358 | the equality holds for every selection if and only if no class uses two name indices of one text in alternation |
| MethodSelection.ShownAlike | src/droidasc_mcp/native_dex.py:338-358 | the same for whatever rows the methods show: the flattened lists are equal if and only if no two methods that show any change places |
| MethodOrder.OrderedWeighs | src/droidasc_mcp/native_dex.py:338-358 | any sum over the methods of a class is the same in file order and in listed order |
| References.RescanIsWalk | src/droidasc_mcp/native_dex.py:567-640 | scanning a method with the mask of the query finds exactly the hits and dynamic sites of its walk |
| References.DroppedHasNothing | src/droidasc_mcp/_dexscan.c:243-275 | a method the selection drops has neither hits nor dynamic sites |
| References.SelectDirectoryMeans | src/droidasc_mcp/native_scan.py:116-135 | the selection accepts a directory exactly when every class and method is valid, and its totals are those of all methods |
| References.SortedChosen | src/droidasc_mcp/native_dex.py:567-640 | sorting only the chosen owners visits them in the order of one pass |
| References.TwoPassesAreOne | src/droidasc_mcp/native_dex.py:567-706 | for one input: select in file order, sort the selection, rescan; it rejects what one ordered pass over every instruction rejects, with the same totals and counts, and the same hits and dynamic sites if and only if no two methods that show any change places |
| TangledQueries.TwoPassesDiffer | src/droidasc_mcp/native_dex.py:567-706 | an accepted input whose hits the two passes list in another order than one pass: its class, code and method table are bytes, and the names and prototypes of the methods are read from the table |
| ReferencePass.ScanChosen | src/droidasc_mcp/native_dex.py:567-706 | rescanning a selection adds its hits and dynamic sites to the page, the total and the first twenty |
| ReferencePass.FindReferences | src/droidasc_mcp/native_dex.py:505-706 | the whole query over several inputs returns the page, total, first dynamic sites and counts of the selected and rescanned methods, or rejects when one pass does; totals and counts are always those of one filtered pass, and the whole answer is when no class is tangled in what it shows |
| Mutf8.DecodeIsExact | src/droidasc_mcp/native_dex.py:29-40 | a string is accepted exactly when its bytes encode the stated number of code units, and then decodes to their text |
| Mutf8.DecodeInvertsEncode | src/droidasc_mcp/native_dex.py:29-40 | decoding inverts Modified UTF-8 (section 4.4.7 of the JVM Specification) on every sequence of UTF-16 units, lone surrogates included |
| Mutf8.DecodeBoundsBytes | src/droidasc_mcp/native_directory.py:30-53 | an accepted string has at most three bytes a unit, which is what the cut-off relies on |
| Mutf8.DeferredName | src/droidasc_mcp/native_directory.py:30-53 | the 512-byte block reader with its cut-off gives the whole-string reader's answer on every input, rejections included |
| PoolMatcher.FallBack | src/droidasc_mcp/_dexscan.c:829-882 | falling back along the border table loses no match that could still be extended |
| PoolMatcher.BorderTable | src/droidasc_mcp/_dexscan.c:829-882 | every entry is the longest proper border of its prefix of the folded query |
| PoolMatcher.Search | src/droidasc_mcp/_dexscan.c:829-882 | found if and only if the folded query occurs as contiguous characters of the folded string |
| PoolMatcher.MatchPool | src/droidasc_mcp/_dexscan.c:806-900 | every entry is decided as the plain filter would decide it, or deferred |
| PoolMatcher.MatchingTypes | src/droidasc_mcp/native_dex.py:360-391 | matches and re-decoded deferred entries together are the naive filter over the whole pool, rejections included |
| CallGraphTruth.WithinIsWalk | src/droidasc_mcp/call_graph.py:76-179 | a method is within n hops if and only if a walk of at most n call sites leads to it from the root |
| CallGraphTruth.NothingNearerIsMissing | src/droidasc_mcp/call_graph.py:102-143 | when a node is taken from the queue, everything no farther than it is listed |
| CallGraphTruth.CutHidesNothing | src/droidasc_mcp/call_graph.py:112-123 | when everything among the first max_edges + 1 call sites of a node has been taken within the edge limit, the node has no further call site |
| CallGraphTruth.ExpandRuns | src/droidasc_mcp/call_graph.py:102-143 | visiting a node keeps the whole invariant: queue order, exact depths, anchored edges, closed nodes, right statuses and at most one reason |
| CallGraphTruth.DepthsAreDistances | src/droidasc_mcp/call_graph.py:100-143 | however the traversal ended, a listed depth is the true shortest distance in the whole graph |
| CallGraphTruth.EdgesAreAnchored | src/droidasc_mcp/call_graph.py:112-138 | listed edges are distinct call sites between listed methods, followed from one above the depth; all limits hold |
| CallGraphTruth.UnstoppedIsWhole | src/droidasc_mcp/call_graph.py:100-143 | a traversal no budget stopped lists exactly the methods within the depth and exactly the call sites of those closer, each once |
| CallGraphTruth.StoppedByOneBudget | src/droidasc_mcp/call_graph.py:87-143 | a stopped traversal has exactly one reason, and a listed node with an unlisted call site that this budget refuses; otherwise the depth is the only possible reason |
| CallGraphTruth.StatusTells | src/droidasc_mcp/call_graph.py:141-143 | what each expansion status says about the call sites of its node |
| CallGraphTruth.NoReasonIsEverything | src/droidasc_mcp/call_graph.py:113-143 | there is no truncation reason if and only if no listed method lacks a call site, and then everything reachable is listed |
| CallGraphTruth.ExploreAccounted | src/droidasc_mcp/call_graph.py:85-99 | the byte account is the reserve, every node as listed and every edge, and stays within the limit |
| CallGraphAnswers.DiagnosticsAreFirst | src/droidasc_mcp/call_graph.py:145-155 | the listed unresolved sites are a prefix of all of them in node order: the first twenty unless bytes ran out |
| CallGraphAnswers.CompleteClaim | src/droidasc_mcp/call_graph.py:170-172 | the answer claims completeness within the depth if and only if no budget stopped the traversal and the diagnostics fitted |
| CallGraphAnswers.AnswerDepths | src/droidasc_mcp/call_graph.py:156-179 | the depths of every answer are true distances |
| CallGraphAnswers.AnswerEdges | src/droidasc_mcp/call_graph.py:156-179 | the edges of every answer are call sites of the input, each once, between methods it names |
| CallGraphAnswers.CompleteAnswer | src/droidasc_mcp/call_graph.py:156-179 | an answer that claims to be complete within its depth is |
| CallGraphQuery.Explorer.VisitLink | src/droidasc_mcp/call_graph.py:112-138 | one adjacent edge, against the budgets in their order, updates nodes, queue, edges, seen keys, reasons and bytes as the specification does |
| CallGraphQuery.Explorer.ExploreAll | src/droidasc_mcp/call_graph.py:100-143 | the loops over queue, columns and edges compute the traversal over the index, or the course of the run over the rescanning source, batch by batch; they end early exactly when that run does |
| CallGraphQuery.QueryCallGraph | src/droidasc_mcp/call_graph.py:76-179 | over the index the answer is the one the graph has; over the rescanning source it is that of the run, and the budget exception comes exactly when the run gives up; any answer reports a fair traversal of the whole graph |
| CallGraphQuery.AnswerCallGraph | src/droidasc_mcp/xref_index.py:200-215 | without an index the rescanning source is asked first, and the index when that gives up: there always is an answer the whole graph allows, and it is the index's for queries that follow calls forth alone and for inputs without alternation |
| TangledCallGraphs.TangledAnswers | src/droidasc_mcp/native_graph.py:64-122 | an input and a query on which the answer over the index and that of the run over the rescanning source, whatever its budget, name different methods |
| CallSites.ScanCovers | src/droidasc_mcp/native_graph.py:79-98 | the scan of a frontier sees no call site more often than the index lists it, and every one the frontier asks for |
| CallSites.ColumnOrder | src/droidasc_mcp/native_graph.py:79-120 | of any part of the call sites a frontier asks for the scan comes upon as many as the index has, and in index order if and only if no two methods of one class that have any change places |
| CallSites.CallsNeverShuffle | src/droidasc_mcp/native_graph.py:93-120 | the calls a method of a frontier makes always come in index order |
| CallSites.UntangledNeverShuffles | src/droidasc_mcp/native_graph.py:79-86 | inputs without alternating name indices of one text are safe from it, whatever the frontier and the part of its call sites |
| CallSites.TangledInput | src/droidasc_mcp/native_graph.py:79-86 | a class whose callers are listed in one order by the index and come upon in the other by the scan |
| FrontierScans.GatherStep | src/droidasc_mcp/native_graph.py:93-120 | what has been kept and what is still to come always make up the cut adjacency of every name of the batch |
| FrontierScans.ScanIsFair | src/droidasc_mcp/native_graph.py:93-120 | what a scan keeps for a name has the right end, each call site once, and leaves none out unless it is as long as the cut |
| FrontierScans.CalmExactly | src/droidasc_mcp/native_graph.py:79-120 | a frontier is handed over in index order for every end and name if and only if no callers of its names change places |
| FrontierGraphs.FrontierGraph.Scan | src/droidasc_mcp/native_graph.py:74-120 | DEX by DEX, selected class by class, method by method in listed order: what is kept for every name is the front of its call sites in that order, and the charge is exactly that of what is kept |
| FrontierGraphs.FrontierGraph.PrepareBatch | src/droidasc_mcp/native_graph.py:64-122 | one batch fits exactly when the visited names, the call sites kept and the new names cost no more than the budget, or nothing is charged; then the kept call sites of every name are the front of those the scan comes upon, and all ends have right definitions |
| FrontierGraphs.FrontierGraph.Prepare | src/droidasc_mcp/native_graph.py:50-62 | the frontier at hand stays if the first identity is in it; else it becomes the first batch that fits of those made by halving, and the source gives up exactly when none does |
| FrontierScans.Rescan.PreparedMeans | src/droidasc_mcp/native_graph.py:50-62 | the frontier at hand then holds the first identity and has been afforded; giving up means that this identity was not at hand and does not fit alone |
| FrontierGraphs.FrontierGraph.Root | src/droidasc_mcp/native_graph.py:44-48 | scans for the root alone, and finds it exactly when it is defined or called in the input, as the index does |
| FrontierScans.Rescan.HandedIsFair | src/droidasc_mcp/native_graph.py:176-188 | what is handed over for a method of the frontier may stand for its adjacency |
| FrontierScans.Rescan.HandedIsIndexed | src/droidasc_mcp/native_graph.py:176-188 | for the calls a method makes it is what the index hands over, and for the calls to it when no callers change places |
| FrontierGraphs.FrontierGraph.AdjacentLinks | src/droidasc_mcp/native_graph.py:176-188 | the links name the kept call sites, the method at their other end and the definition of their target |
| FrontierGraphs.FrontierGraph.PrepareDiagnostics | src/droidasc_mcp/native_graph.py:124-162 | the counts and the first twenty dynamic sites of every listed method, exactly when these cost no more than the batch leaves, or there are none |
| CallGraphOrders.TakenExactly | src/droidasc_mcp/call_graph.py:112-138 | when a node below the depth is taken, a call to it has been taken exactly when calls are followed both ways and its caller was taken before or now |
| CallGraphOrders.ExpandAtDepth | src/droidasc_mcp/call_graph.py:112-120 | at the depth a node is visited alike in whatever order its adjacency comes |
| CallGraphOrders.RivalsAgree | src/droidasc_mcp/call_graph.py:102-143 | below the depth, when nothing is refused in one order, another leads to the same state if the calls not yet taken come in the same order |
| CallGraphOrders.RivalsForced | src/droidasc_mcp/call_graph.py:102-143 | and only then, as far as the edges listed in the end tell |
| FrontierRuns.RescannedAnswers | src/droidasc_mcp/native_graph.py:50-62 | whatever the frontiers of a run, its answer is one the whole graph allows |
| FrontierRuns.GivesUpMeans | src/droidasc_mcp/native_graph.py:50-62 | a run gives up only when the root does not fit alone, or after some methods the next one is not at hand and does not fit alone beside those listed, or in the end the dynamic sites of those listed do not fit beside the frontier at hand |
| FrontierRuns.RootExactly | src/droidasc_mcp/native_graph.py:44-62 | the root is given up exactly when it does not fit alone |
| FrontierRuns.AgreesExactly | src/droidasc_mcp/native_graph.py:50-188 | when no budget stops the traversal over the index: the answer of a run is the one over the index if and only if for no method taken below the depth two callers in one class, other than those already taken when calls are followed both ways, change places in the scan for its frontier |
| FrontierRuns.SteadyIsAsked | src/droidasc_mcp/native_graph.py:50-188 | under any budgets: it is when no callers of the methods taken below the depth change places in the scans for their frontiers |
| FrontierRuns.OutgoingIsAsked | src/droidasc_mcp/native_graph.py:50-188 | and always when the query follows calls forth alone |
| FrontierRuns.UntangledIsAsked | src/droidasc_mcp/native_graph.py:50-188 | and always when the input uses no two name indices of one text in alternation |
| FrontierRuns.OneHopExactly | src/droidasc_mcp/native_graph.py:50-188 | for the callers one hop back of a method, when no budget stops the index: if and only if the frontier of the method alone is calm |
| JsonText.DumpsAscii | src/droidasc_mcp/reference_groups.py:63-67 | encoded text is ASCII, so its length is its size in bytes |
| JsonText.ArrAppend | src/droidasc_mcp/reference_groups.py:63-67 | what one more item adds to the length of an array |
| JsonText.PutSize | src/droidasc_mcp/reference_page.py:41-60 | what assigning a key changes in the length of an object |
| ReferenceGroupings.AddRowSize | src/droidasc_mcp/reference_groups.py:53-67 | the extra bytes counted for a row are exactly what it adds to the encoded groups |
| ReferenceGroupings.FlatRowIsRow | scripts/benchmark_competitor_runtime.py:215-231 | a row comes back, as a dictionary, from its group and its evidence |
| ReferenceGroupings.GroupsAreRuns | src/droidasc_mcp/reference_groups.py:41-81 | neighbouring groups differ in identity, targets are distinct and numbered in the order of first use, and no group is empty |
| ReferenceGroupings.UngroupInvertsGroup | scripts/benchmark_competitor_runtime.py:208-231 | flattening the groups of any rows gives the rows back in order with duplicates |
| ReferenceGroupings.ReferenceGroups.Offer | src/droidasc_mcp/reference_groups.py:30-81 | a row is kept unless it would start one group too many or make the encoded groups longer than allowed; the account stays the encoded length; a refused row changes nothing but the reason |
| ReferenceCursors.Decode64Inverts | src/droidasc_mcp/reference_cursor.py:43-46 | base64 decoding inverts encoding on all byte sequences |
| ReferenceCursors.SizeIsExact | src/droidasc_mcp/reference_cursor.py:39-46 | the size computed from the number of digits is the length of the encoded cursor |
| ReferenceCursors.DecodeExactly | src/droidasc_mcp/reference_cursor.py:48-67 | a cursor is accepted for an offset if and only if it is a payload with its signature that reads as version 1, this query's selector and the offset, which is below 2^63 |
| ReferenceCursors.StrictReadsBack | src/droidasc_mcp/reference_cursor.py:36-37 | what is asked of the JSON reader, to read the payloads that are written, can be met |
| ReferenceCursors.DecodeInverts | src/droidasc_mcp/reference_cursor.py:43-67 | following a continuation leads to its offset |
| ReferenceCursors.SelectorsDoNotMix | src/droidasc_mcp/reference_cursor.py:28-67 | a continuation of one selector is refused for any other of the session |
| GroupedReferences.ResponseSize | src/droidasc_mcp/grouped_references.py:51-67 | overhead and encoded groups are the length of the finished response, except one byte less when the group limit ended it; so the digit, cursor and terminal corrections are exact |
| GroupedReferences.AcceptedPageFits | src/droidasc_mcp/grouped_references.py:87-114 | a page that accepted a site never fails the final check of its length |
| GroupedReferences.RefusedRowDoesNotFit | src/droidasc_mcp/grouped_references.py:87-97 | a page never stops early: the refused row would start one group too many, or the response ending with it would be too long |
| GroupedReferences.TakeRows | src/droidasc_mcp/grouped_references.py:87-97 | offering a chunk row by row goes as far as the whole stream would |
| GroupedReferences.GroupedPage | src/droidasc_mcp/grouped_references.py:13-114 | whatever the chunks, a returned page fits; if they are slices of one stream of any sizes, the page depends on the stream, the offset and the limits alone |
| GroupedReferences.ResponseCursor | src/droidasc_mcp/grouped_references.py:103-113 | a continuation is named exactly when rows remain, and it is the position's |
| GroupedReferences.RunReturnsStream | src/droidasc_mcp/grouped_references.py:33-113 | flattening the groups of all pages reached by continuations gives the flat stream, whatever the limits of each request, in no more requests than rows |
| ReferencePages.FirstSize | src/droidasc_mcp/reference_page.py:50-60 | the header and the running sum are the length of the cut page |
| ReferencePages.CountRows | src/droidasc_mcp/reference_page.py:60-66 | finds the longest prefix of rows with which the cut page fits |
| ReferencePages.ReferencePage | src/droidasc_mcp/reference_page.py:28-70 | passes on, labels, drops the cache note, cuts or gives up as lengths demand; a page it returns fits |
| ReferencePages.CutWithAllIsLonger | src/droidasc_mcp/reference_page.py:41-60 | a cut page with all rows is never shorter than the page itself, so a cut page always lacks a row |
| ReferencePages.BoundedIsTruthful | src/droidasc_mcp/reference_page.py:28-70 | bounding a truthful page keeps it truthful: no more is claimed after the last row, and the next offset is where the rows end |
| ReferencePages.PageIsTruthfulExactly | src/droidasc_mcp/native_dex.py:484-495 | a page made of what a query found is truthful about the rows and where they go on, if and only if no row is left or it found as many rows as the limit it names, and some |
| ReferencePages.QueryPageExactly | src/droidasc_mcp/native_dex.py:512-512 | for a query: if and only if nothing is left or the limit it collects to is the limit named, which fails exactly without a limit and with pages of more than a hundred rows |
| ReferencePages.UnstatedLimitSkips | src/droidasc_mcp/native_dex.py:484-495 | such a query: the next offset passes over rows |
| ReferencePages.RunCoversStream | src/droidasc_mcp/native_dex.py:484-495 | following the next offsets of pages made by the query and cut to any length visits every row once, in order, in no more requests than rows |
| SortedPages.RankedIsSorted | src/droidasc_mcp/native_page.py:84-99 | the full order is a permutation, by key and by arrival among equals |
| SortedPages.OrderedUnique | src/droidasc_mcp/native_page.py:98-99 | there is one such order, so sorting the heap gives the front of it |
| SortedPages.LeastStep | src/droidasc_mcp/native_page.py:72-80 | what one more row changes among the least rows and their bytes |
| SortedPages.SortedPage.Add | src/droidasc_mcp/native_page.py:61-82 | the heap holds exactly the least rows so far, the account is their bytes, and the budget error comes exactly when they exceed it |
| SortedPages.SortedPage.Items | src/droidasc_mcp/native_page.py:84-99 | heap or spool, the page is the stable full sort sliced at offset and limit |
| ClassDirectories.KeysSortAsUtf16 | src/droidasc_mcp/class_directory.py:36-41 | byte order of keys is UTF-16 code-unit order of names, lone surrogates included |
| ClassDirectories.DecodeKeyExactly | src/droidasc_mcp/class_directory.py:44-48 | a key gives back its name if and only if the name has no surrogate pair split in two code points |
| ClassDirectories.UpperBound | src/droidasc_mcp/class_directory.py:203-211 | dropping bytes of 255 and raising the last gives the least key above all with the prefix |
| ClassDirectories.RangeSelectsPrefix | src/droidasc_mcp/class_directory.py:203-212 | the half-open range selects exactly the names whose UTF-16 form begins with the prefix |
| ClassDirectories.AllStoredSize | src/droidasc_mcp/class_directory.py:145-158 | the bytes counted for the new names are what they add to the encoded directory |
| ClassDirectories.NameSize | src/droidasc_mcp/class_directory.py:154-155 | a name and the name its key decodes to are escaped alike, so the count does not depend on how pairs are spelled |
| ClassDirectories.RepeatsExactly | src/droidasc_mcp/class_directory.py:151-156 | the byte account of an entry's names is exact if and only if no name new to the directory is given twice |
| ClassDirectories.ClassDirectory.Add | src/droidasc_mcp/class_directory.py:130-171 | a name keeps its first owner; the byte account is the length of the directory as one JSON object, and what repeated names were counted too much; the first twenty names that had an owner are reported |
| ClassDirectories.ClassDirectory.Page | src/droidasc_mcp/class_directory.py:202-225 | counts the rows of the range and returns the slice of them in key order |
| ClassDirectories.PageIsPrefix | src/droidasc_mcp/class_directory.py:202-225 | the rows of the range are those whose key begins with the prefix key, in ascending order |
| PageCaches.GetKeeps | src/droidasc_mcp/memory_cache.py:70-85 | a lookup keeps the account equal to the sum of stored sizes, both limits, and one page a query |
| PageCaches.PutKeeps | src/droidasc_mcp/memory_cache.py:87-108 | so does storing a page |
| PageCaches.EvictedMakesRoom | src/droidasc_mcp/memory_cache.py:101-105 | eviction drops the least recently used pages, makes room, and drops no more than needed |
| PageCaches.HitsAreCurrent | src/droidasc_mcp/memory_cache.py:61-108 | in every interleaving of lookups, computations outside the lock and changes of files, a hit is what the query computes under the present version, and the limits hold |
| PageCaches.PageCache.Lookup | src/droidasc_mcp/memory_cache.py:70-85 | the locked lookup: new cache and hit as specified |
| PageCaches.PageCache.Keep | src/droidasc_mcp/memory_cache.py:87-108 | the locked store, eviction loop included, as specified and within the limits |
| Prefetch.EveryRunConserves | src/droidasc_mcp/containers.py:411-464 | in every interleaving, delivered, buffered, queued, held, dropped and unread bytes in this order are the source |
| Prefetch.EmptyOnlyAtTheEnd | src/droidasc_mcp/containers.py:443-460 | a read returns at most what was asked, and nothing only after everything was delivered |
| Prefetch.FewBytesInFlight | src/droidasc_mcp/containers.py:416-426 | at most three blocks are held at once |
| Prefetch.StoppedProducerLeaves | src/droidasc_mcp/containers.py:419-435 | once stopped, each step of the producer lowers a measure of at most three, so it leaves |
| Prefetch.WaitingReaderIsServed | src/droidasc_mcp/containers.py:443-460 | while the reader waits, each step of the producer comes closer to filling the queue |
| Prefetch.WaitingReaderHasProducer | src/droidasc_mcp/containers.py:443-460 | a waiting reader never waits for a producer that is gone |
| DurableIndexCache.DurableIndexes.Entries | src/droidasc_mcp/durable_index.py:81-102 | drops the pending copy and every entry not used within the time to live, and of the rest the least recently used until both limits hold, none when all fit; cut off anywhere, nothing it leaves is larger, renamed or new |
| DurableIndexCache.DurableIndexes.Evict | src/droidasc_mcp/durable_index.py:99-102 | what is left is the most recently used: nothing left is older than anything gone, and with the last one gone still there it would not fit |
| DurableIndexCache.DurableIndexes.Publish | src/droidasc_mcp/durable_index.py:149-182 | cut off after any change, entries and pending copy exceed neither what they were nor the budget, by more than the file has grown since it was measured; the new entry holds and records the copied bytes beside the most recently used that leave room for it |
| DurableIndexCache.DurableIndexes.RunsStayBounded | src/droidasc_mcp/durable_index.py:81-182 | so over any run of publications, restores and surveys, cut off anywhere and taken over by other processes: the disk exceeds neither what it was at first nor the budget, by more than the most a file has grown, and entries stay what their manifests record |
| DurableIndexCache.DurableIndexes.PublishedComesBack | src/droidasc_mcp/durable_index.py:108-182 | through any looks for any identities within the time to live of a publication, each look for that identity gives exactly the published bytes, unless the file grew while it was copied or another identity has the same key |
| DurableIndexCache.DurableIndexes.Restore | src/droidasc_mcp/durable_index.py:108-147 | of the surveyed entries an intact one is copied and marked as used, a usable one suffices when the target is there, any other of this identity is removed; a copy has exactly the size and digest recorded |
| PreparationZips.ExtraMeans | src/droidasc_mcp/preparation_zip.py:30-40 | extra fields are plain if and only if they are a run of timestamps and fewer than four bytes more, corrupt if and only if a field behind such a run is longer than the rest, and left to the library if and only if one behind it is of another kind |
| PreparationZips.ReadDirectory | src/droidasc_mcp/preparation_zip.py:100-180 | the loop accepts the entries of the directory, or rejects, as the recursive reading of its bytes does |
| PreparationZips.AcceptedEntries | src/droidasc_mcp/preparation_zip.py:172-180 | in an accepted directory names are unique and every local header lies before it |
| PreparationZips.MemberBounds | src/droidasc_mcp/preparation_zip.py:181-189 | rejects exactly when two entries share a local header; else the bound of a member is the next local header of any entry, or the directory |
| PreparationZips.BisectRight | src/droidasc_mcp/preparation_zip.py:184-187 | halving finds the first offset above the given one |
| PreparationZips.PreparationZip.Load | src/droidasc_mcp/preparation_zip.py:84-189 | an archive is accepted exactly when its entries are and no two share a local header; then names are unique and every retained member has its bound |
| PreparationZips.PreparationZip.Open | src/droidasc_mcp/preparation_zip.py:58-81 | a retained member opens exactly when its data, found through its local header, ends within its bound |
| PreparationZips.PreparationZip.OpenedApart | src/droidasc_mcp/preparation_zip.py:58-189 | of an accepted archive, what opens lies before the directory, shares no byte with anything else that opens, and with another entry's local header exactly when it starts inside one |
| PreparationZips.SharesHeaderExactly | src/droidasc_mcp/preparation_zip.py:58-81 | a member that fits its bound holds a byte of another entry's local header, retained or not, if and only if it starts inside that header |
| PreparationZips.CodeInsideHeader | src/droidasc_mcp/preparation_zip.py:100-189 | an archive, given byte by byte, whose directory is read as two entries and accepted, and whose code fits its bound although it starts inside the local header of the other entry |
| PreparationZips.OpenNested | src/droidasc_mcp/preparation_zip.py:58-189 | that archive is opened, and so is the code in it |
| PreparationZips.OpenStaysInside | src/droidasc_mcp/preparation_zip.py:58-81 | the bytes of a member that fits lie before the directory and before every entry that starts behind it |
| PreparationZips.OpenMembersAreDisjoint | src/droidasc_mcp/preparation_zip.py:58-81 | two members that fit their bounds share no byte |

## Left out

* The regular-expression scanner that replaces the C module when it is missing
  (src/droidasc_mcp/native_scan.py:200-286): it rests on the `re` engine.
* Rows handed to a consumer before an input turns out invalid: the consumer discards them, so a
  query here has one answer or one rejection. All reasons for rejecting a DEX are one rejection.
* Names, prototypes and descriptors as text: members are indices with the keys they sort by, and the dictionary
  of definitions that resolves targets in reference answers is not part of this model. A code offset of 0,
  for a method without code, is dealt with by the callers.
  Rejections of text that cannot be decoded are therefore not among the rejections compared here. The header of a DEX
  and the tables of its pools but for the method table are the fields of `Input`.
* The SQL of the index, of the class directory and of deep sorted pages: tables are sequences in the order the
  queries ask for. That definitions are unique and that a call site is known by caller and address is what the
  index's unique columns enforce.
* Where the definitions and dynamic sites of a call graph stand in the input: both sources read them from the classes,
  and here they are given beside the call sites.
* The bytes reported in call-graph rows, apart from their encoded sizes, which are parameters. The scanners of the
  rescanning source pass over call sites of a selected method that match nothing; here they are come upon and not kept.
* HMAC and SHA-256 are functions of their input, signatures 32 bytes long.
* The JSON reader of continuations is a function that reads payloads as they are written; what else it reads is open.
* Wall clocks, cancellation checks and the deadline of grouped pages; the entry numbers of the class directory and
  its older formats.
* The cache note added to a hit, and the page bounding applied to it (`ReferencePage` models that step).
* Locks and fsync are atomic steps. What other programs write into the cache directory is not modelled; `Restore`
  checks what it finds in any case.
* Opening of ZIP members beyond the overlap check, name decoding, path checks and extra fields other
  than timestamps, which are library calls.
* `native_index.py` (annotations, catch types) but for the order of its call sites, manifest, signing and XML decoding, settings,
  worker processes, Java bridges and tool schemas: outside the query engine modelled here.
