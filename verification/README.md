# Ravel-Lite, verified models

Ravel-Lite runs plan cycles with coding agents, keeps a catalog of components and the edges
between them, and reads layered Lua configuration that it once migrated from YAML. These Dafny
modules model the parts of it whose behaviour is decided completely by the code, and prove what
those parts are for.

| module | models |
|---|---|
| `DirectedGraphs`, `Reachability`, `Ordering` | the adjacency store, its transposed index, hop-bounded shortest path and path reconstruction (`src/directed_graph.rs`) |
| `Tarjan` | Tarjan's search, with its index, lowlink, stack and component state (`src/directed_graph.rs`) |
| `Atlas` | the deduplicated edge graph, neighbourhoods, roots and the projection into the store (`src/atlas.rs`) |
| `Yaml`, `LuaText`, `Translation`, `Migration`, `Whitespace` | the v1 to v2 configuration migration: merging, generating Lua, and the file protocol (`src/migrate_v1_to_v2.rs`) |
| `DirectoryMeaning`, `MigrationEffect`, `GeneratedExample` | what a migrated directory resolves to and holds, in terms of the files that were there, and one generated file in full (`src/migrate_v1_to_v2.rs`) |
| `ConfigLua` | setters over the accumulator and the `ravel.config` table, layer by layer (`src/config_lua.rs`) |
| `PhaseLoop` | the phase cycle over an abstract repository (`src/phase_loop.rs`, `src/git.rs`) |
| `UtcClock` | the UTC formatter against the Gregorian calendar of RFC 3339 (`src/debug_log.rs`) |
| `PromptTokens`, `PromptOrder` | ordered token replacement, the leftover-token guard, and when the order shows (`src/prompt.rs`) |
| `Sanitizer`, `SanitizerModes`, `SanitizerLoop` | the position-preserving lexer by lexemes, character by character, and its loop (`scripts/check_errorcode_chains.py`) |
| `StderrDrain` | the rolling stderr buffer and snippet truncation (`src/agent/common.rs`) |

Code that updates state is a method or a class here, proved against a function of its inputs or
of its old state; the lemmas then say what that function means. `Wrappers` holds `Option`.

## Where the code and its description part

Each of these is a theorem below, with the exact condition.

- The migration takes a negative `headroom` and translates it into a call that raises an error. What
  it makes of a directory's YAML resolves in every other case, and in no such one
  (`DirectoryMeaning.DirectoryTranslated`, `Migration.NegativeHeadroom`).
- Stamping a `config.lua` appends to it, and in Lua nothing may follow a `return`. A script the reader
  knows means the same after migration, under every plan, unless it is stamped and comes to a
  `return`; then Lua refuses it (`Migration.OwnLuaKept`, `Migration.ReturnRefused`).
- The sanitizer's description says newlines are preserved. A backslash that continues a line inside
  a string literal loses that newline; otherwise all are kept (`Sanitizer.NewlinesKept`).
- The stderr drain cuts at a byte, and Rust refuses a cut inside a character: it panics exactly
  when some 4096-byte window starts inside one (`StderrDrain.Drain`).
- The calendar's year is a 32-bit counter. It is enough exactly up to the start of year 2^32; the
  model stops there with `YearOverflow`, as a build with overflow checks does, where another build
  would wrap (`UtcClock.FormatUnixUtc`, `UtcClock.OverflowReachable`).
- The commit that the analyse-work step records as a baseline carries the new phase marker exactly
  when HEAD already did, when there is no commit spec, or when some entry of the spec stages
  `phase.md` when its turn comes: one of its pathspecs matches it, and every one of them matches
  something on disk or in HEAD, since `git add` stages nothing otherwise
  (`PhaseLoop.AnalyseBaselineCarriesMarker`, `PhaseLoop.UncoveredSpec`, `PhaseLoop.StalePath`); a
  comment in the source says every step commits its marker.
- A comment in the source says that a work commit that bails cannot leave the plan recording progress
  it has not made. A script step fails exactly when its preparation does or the commit spec names an
  unmounted target (`PhaseLoop.ScriptStepFailsIff`); in the second case `phase.md` on disk already
  says `reflect` and the spec is gone, so the loop goes on from reflect and nothing asks for the
  remaining commits any more (`PhaseLoop.UnmountedTarget`).
- Agent tokens are replaced in the hash map's order. For brace-free keys and any values at all, every
  content comes out the same in every order exactly when no value meets the placeholder of another
  token that stands for anything but its own placeholder. A value meets a placeholder if it holds it,
  ends in its beginning, begins with its end, or is inside it, as the empty value always is
  (`PromptOrder.OrdersAgreeIff`, `PromptOrder.OpenBrace`). For templates, whose text holds no doubled
  opening brace and no opening brace at its end, only the first two matter
  (`PromptOrder.TemplatesAgreeIff`). Under the first condition what calls return never differs either;
  where it fails for a token the guard can see, it does (`PromptOrder.CallsAgreement`,
  `PromptOrder.OrderMatters`).
- Direct writes to `ravel.config` reach the accumulator only at the commit after the layer. A first
  layer may be joined with whatever layer follows it exactly when it fails or the commit after it
  changes nothing (`ConfigLua.ConcatenatesIff`), which its text shows
  (`ConfigLua.ConcatenatesByText`, `ConfigLua.TableWritesDoNotConcatenate`); with a commit in between
  layers always concatenate (`ConfigLua.LayersCommitBetween`).
- A migration interrupted after its last removal leaves the directories it had yet to prune for good
  (`Migration.Recovery`, `Migration.PruneInterrupted`).
- A user's own file called `config.lua.tmp` is lost exactly when a run writes `config.lua`
  (`Migration.TmpLostIffWritten`, `Migration.TmpLost`).

## Model

| member | source | states |
|---|---|---|
| `DirectedGraphs.DirectedGraph.AddNode` | src/directed_graph.rs:51-53 | keeps both indexes consistent, adds exactly that node and no edge |
| `DirectedGraphs.DirectedGraph.AddEdge` | src/directed_graph.rs:58-69 | out-lists and in-lists stay duplicate-free transposes with endpoints among the nodes, and list what was added in the order of the first additions; the edge set gains exactly that edge; a repeated edge changes nothing |
| `DirectedGraphs.PushKeepsConsistent` | src/directed_graph.rs:58-69 | one push into each index, unless already listed, keeps the pair consistent and adds exactly one edge |
| `DirectedGraphs.DirectedGraph.ContainsEdge` | src/directed_graph.rs:101-105 | membership in the edge set |
| `DirectedGraphs.DirectedGraph.EdgeCount` | src/directed_graph.rs:93-95 | the sum of the list lengths is the size of the edge set |
| `DirectedGraphs.DirectedGraph.ShortestPath` | src/directed_graph.rs:107-148 | a path is returned if and only if both endpoints are known and some walk within the hop limit joins them; it is a walk of real edges from one to the other, no walk is shorter, and of all shortest walks it is the one that takes the edge added first where they part |
| `DirectedGraphs.NeighborsAsAdded` | src/directed_graph.rs:71-75 | the neighbours of a node are the targets added for it, each once, one before another if and only if its edge was first added before the other's |
| `DirectedGraphs.ReverseNeighborsAsAdded` | src/directed_graph.rs:77-81 | the same of the nodes that point at it |
| `DirectedGraphs.FirstIsEarliest` | src/directed_graph.rs:114-117 | the path that is first by the positions in the lists is first by the order of insertion |
| `DirectedGraphs.EarliestIsUnique` | src/directed_graph.rs:114-117 | that singles out one path: the order of insertion alone decides the output |
| `DirectedGraphs.FirstIsUnique` | src/directed_graph.rs:114-117 | by the positions in the lists, too, only one shortest path is first |
| `DirectedGraphs.NewRouteFirst` | src/directed_graph.rs:132-145 | the route through the first discoverer precedes every other walk of that length to the new node |
| `DirectedGraphs.ReconstructPath` | src/directed_graph.rs:171-183 | following parent pointers ends, and gives the walk from the start whose length is the recorded distance |
| `Reachability.LabelBound` | src/directed_graph.rs:130-145 | every walk no longer than the level the queue has reached ends in a discovered node labelled at most its length |
| `Tarjan.StronglyConnectedComponents` | src/directed_graph.rs:150-168 | the output lists the classes of mutual reachability, covering exactly the nodes, each class in alphabetical order and the classes in the alphabetical order of their first members; before sorting, the emitted components partition the nodes and every edge leads to the same or an earlier component |
| `Tarjan.TarjanState.StrongConnect` | src/directed_graph.rs:206-244 | keeps the search invariant (stack membership set exact, visit order, closed emitted components, everything stacked leads back to a caller), terminates on the unvisited nodes, and reports as lowlink either the node's own index, with its component emitted, or the index of a smaller stacked node it reaches |
| `Tarjan.TarjanState.PopComponent` | src/directed_graph.rs:230-242 | the pop loop never finds the stack empty and emits exactly what lay from the root upwards |
| `Tarjan.TarjanState.IntoSortedComponents` | src/directed_graph.rs:246-252 | sorts every component, into alphabetical order where its members are distinct, and then the list of them; what these sorts give is in `Tarjan.SortedPartition` and `Tarjan.ListingInOrder` |
| `Tarjan.PoppedIsComponent` | src/directed_graph.rs:229-243 | when the lowlink equals the index, what is popped is a whole class of mutual reachability |
| `Tarjan.PoppedTopological` | src/directed_graph.rs:229-243 | emitting it keeps the reverse topological order of the components |
| `Tarjan.Deferred` | src/directed_graph.rs:229-244 | when it does not, the node stays stacked and leads back to an active caller |
| `Tarjan.AfterVisit` | src/directed_graph.rs:214-220 | taking the smaller lowlink after a recursive visit keeps every property of the walk over the out-edges |
| `Tarjan.SearchComplete` | src/directed_graph.rs:160-168 | once every node is visited the stack is empty and the emitted components are the partition |
| `Tarjan.SortedPartition` | src/directed_graph.rs:246-252 | sorting turns any such partition into the canonical listing |
| `Tarjan.ListingIsCanonical` | src/directed_graph.rs:150-154 | the node set and the edge set alone determine the output, whatever the order of insertion |
| `Tarjan.ListingInOrder` | src/directed_graph.rs:246-252 | in every such listing the components are in alphabetical order, and by their first members so is the list |
| `Ordering.NameLessMeans` | src/directed_graph.rs:246-252 | the order of names is that of a dictionary: one begins the other, or is smaller at the first character where they part |
| `Ordering.NamesLessMeans` | src/directed_graph.rs:246-252 | lists of names are ordered in the same way, name by name |
| `Ordering.SortedIsCanonical` | src/directed_graph.rs:246-252 | two strictly sorted sequences with the same elements are equal |
| `Atlas.FromCatalog` | src/atlas.rs:838-857 | the union holds something like every recorded edge, each the first of its like, in registry-then-file order |
| `Atlas.FirstSeenIsUnion` | src/atlas.rs:838-857 | every kept edge is the first record of its like, and those kept stand in the order of these first records |
| `Atlas.SameKeyIff` | src/atlas.rs:840 | two edges have the same key if and only if they agree in kind and lifecycle and in their participants, in either order for a symmetric kind |
| `Atlas.FlattenConcat` | src/atlas.rs:842-855 | the files are read one after the other |
| `Atlas.FirstSeenKeys` | src/atlas.rs:838-857 | no key is lost, none is repeated, and every edge kept was recorded |
| `Atlas.FirstSeenMeaning` | src/atlas.rs:838-857 | deduplication changes neither the directed nor the undirected graph |
| `Atlas.BuildAdjacency` | src/atlas.rs:933-943 | the list of every node holds exactly the peers some edge joins it to, one before another if the first edge to it was recorded before any to the other |
| `Atlas.AdjacencyMeaning` | src/atlas.rs:928-943 | a peer is listed if and only if some edge joins the two, in either direction, and only once |
| `Atlas.PeersInOrder` | src/atlas.rs:928-943 | the peers of a node, each once; one stands before another if and only if the first edge to it was recorded before the first to the other |
| `Atlas.Neighbors` | src/atlas.rs:870-898 | lists each component within `depth` undirected hops exactly once, with its exact distance, nearest first; of two listed ones the first is found from an earlier place in the list, or from the same by an earlier edge |
| `Atlas.ListingInOrder` | src/atlas.rs:874-898 | that order, of the level-by-level expansion |
| `Atlas.LevelsAreDistances` | src/atlas.rs:874-898 | level k of the expansion is exactly the nodes at distance k |
| `Atlas.DeeperExtends` | src/atlas.rs:874-898 | the list for a smaller depth is a prefix of the list for a larger one |
| `Atlas.Roots` | src/atlas.rs:905-926 | computes the members without an incoming directed edge, at their first occurrence |
| `Atlas.RootsInOrder` | src/atlas.rs:900-926 | exactly the universe members that no directed edge enters, once each, in order of first occurrence |
| `Atlas.BuildDirectedComponentGraph` | src/atlas.rs:959-992 | nodes are the live components and the endpoints of directed edges, edges are exactly the directed ones, handed over in file order; fails at the first directed edge with an invalid participant, source before destination |
| `Atlas.PairsInOrder` | src/atlas.rs:965-990 | of two directed edges the store was handed first the one that was recorded first |
| `Atlas.RootsAreSources` | src/atlas.rs:905-992 | on the projected graph the roots are the universe members without `reverse_neighbors`, once each in first-seen order |
| `Yaml.DeepMerge` | src/migrate_v1_to_v2.rs:382-397 | the in-place merge computes the recursive one |
| `Yaml.MergeByKey` | src/migrate_v1_to_v2.rs:382-397 | a merge of mappings is decided key by key: from the one side that has the key, or the merge of both |
| `Yaml.MergeWellKeyed` | src/migrate_v1_to_v2.rs:382-397 | keys stay distinct at every depth |
| `Yaml.OverlayLeavesKept` | src/migrate_v1_to_v2.rs:382-397 | every overlay value that is not a mapping is found at its path in the merge |
| `Yaml.BaseEntriesKept` | src/migrate_v1_to_v2.rs:382-397 | everything in the base that the overlay's mappings do not reach is kept |
| `Yaml.MergeIdempotent` | src/migrate_v1_to_v2.rs:382-397 | merging the same overlay twice is merging it once |
| `Yaml.MergeKeyOrder` | src/migrate_v1_to_v2.rs:382-397 | a merge of mappings keeps the base's keys in their order and appends the new ones in the overlay's |
| `LuaText.LuaQuote` | src/migrate_v1_to_v2.rs:405-419 | computes the quoted literal character by character |
| `LuaText.QuoteRoundTrip` | src/migrate_v1_to_v2.rs:399-419 | a Lua short-literal lexer reads the quoted text, with anything after it, as exactly the string and stops at the closing quote |
| `LuaText.QuoteInjective` | src/migrate_v1_to_v2.rs:399-419 | a quoted literal determines its string and where it ends |
| `LuaText.QuotePlain` | src/migrate_v1_to_v2.rs:405-419 | characters other than backslash, quote, newline and carriage return stand for themselves |
| `LuaText.QuotedOneLine` | src/migrate_v1_to_v2.rs:405-419 | a quoted literal holds no line break |
| `LuaText.IntRoundTrip` | src/migrate_v1_to_v2.rs:268-270 | a printed integer reads back, negative ones included |
| `LuaText.NatShortest` | src/migrate_v1_to_v2.rs:268-270 | numbers are printed without leading zeros |
| `LuaText.LineReads` | src/migrate_v1_to_v2.rs:301-343 | every line the emitters write reads back as the setter call it stands for |
| `LuaText.ProgramRoundTrip` | src/migrate_v1_to_v2.rs:251-299 | a rendered script of comments, blank lines, stamp and calls reads back as its statements |
| `LuaText.ProgramAppends` | src/migrate_v1_to_v2.rs:229-240 | text on a new line adds exactly its own statements to a script that reads, unless that comes to a `return`: then only silent text may follow, and a version stamp makes Lua refuse the whole |
| `Translation.EmitSettings` | src/migrate_v1_to_v2.rs:303-316 | appends one line per string-valued entry with a string key, in alphabetical order of the keys |
| `Translation.SettingsInOrder` | src/migrate_v1_to_v2.rs:303-316 | the lines are exactly those of the entries with a string key and a string value, in alphabetical order |
| `Translation.EmitAgentSetters` | src/migrate_v1_to_v2.rs:301-325 | appends the model lines and then the provider line |
| `Translation.EmitTokenSetters` | src/migrate_v1_to_v2.rs:327-343 | appends the token lines; nothing for a value that is not a mapping |
| `Translation.GenerateLua` | src/migrate_v1_to_v2.rs:251-299 | the text is the rendering of header, stamp, shared settings and one section per agent with YAML; what it says is in `Translation.GeneratedTextReads` and `Translation.TranslationKeepsMeaning` |
| `GeneratedExample.GeneratedExample` | src/migrate_v1_to_v2.rs:251-299 | the file generated for one configuration, line by line |
| `Translation.StrMapFinds` | src/migrate_v1_to_v2.rs:303-306 | collecting into an ordered map agrees with looking a key up, whatever the order of the mapping |
| `Translation.TranslationKeepsMeaning` | src/migrate_v1_to_v2.rs:251-343 | running the script over the embedded defaults gives the defaults overridden by the YAML, setting by setting, and leaves everything else alone; it fails exactly when the headroom is a negative integer |
| `Translation.GeneratedTextReads` | src/migrate_v1_to_v2.rs:251-299 | the generated text reads back as that script, for every YAML |
| `Migration.MarkerConcat` | src/migrate_v1_to_v2.rs:242-247 | the marker is found in two texts joined by a newline if and only if it is found in one of them |
| `Migration.StampedHasMarker` | src/migrate_v1_to_v2.rs:229-247 | a stamped `config.lua` is recognised as stamped |
| `Migration.GeneratedHasMarker` | src/migrate_v1_to_v2.rs:242-258 | so is every generated one |
| `MigrationEffect.MarkerIsStamp` | src/migrate_v1_to_v2.rs:242-247 | the marker is found if and only if some line is the stamp with nothing but spaces around it |
| `Migration.StampedText` | src/migrate_v1_to_v2.rs:229-240 | what a stamped file says |
| `Migration.ConfigDir.WriteAtomic` | src/migrate_v1_to_v2.rs:218-227 | replaces `config.lua` and consumes the temporary file; on the way at most the temporary file differs |
| `Migration.ConfigDir.DeleteLegacyFiles` | src/migrate_v1_to_v2.rs:170-192 | removes exactly the listed files; on the way a prefix of them is gone |
| `Migration.PresentConcat` | src/migrate_v1_to_v2.rs:132-162 | the files that are present are removed in the order of the lists |
| `Migration.ConfigDir.PruneLegacyDirs` | src/migrate_v1_to_v2.rs:194-216 | removes the former directories that are empty by the time they are reached |
| `MigrationEffect.PruneMeaning` | src/migrate_v1_to_v2.rs:194-216 | a former directory survives if and only if a file, or a directory that is none of the former ones, is somewhere under it; other directories are left alone |
| `Migration.ConfigDir.MigrateIfNeeded` | src/migrate_v1_to_v2.rs:70-97 | ends in the migrated directory, says whether it did anything, and every state on the way is one of the listed crash points; what the migrated directory is is stated by `MigrationEffect.RunEffect` and `DirectoryMeaning.DirectoryTranslated` |
| `MigrationEffect.PlanIs` | src/migrate_v1_to_v2.rs:99-127 | there is nothing to do exactly without shipped defaults and overlays; a run fails exactly where there is no `config.lua` and a file to translate does not parse; it writes unless the stamp is there |
| `MigrationEffect.RunEffect` | src/migrate_v1_to_v2.rs:70-97 | what a completed run makes of every path: `config.lua` ends up stamped and keeps its old text in front, shipped defaults and overlays are gone, former directories survive if something of the user's own is under them, and all else is as it was |
| `Migration.Recovery` | src/migrate_v1_to_v2.rs:17-21 | from any crash point the next run ends with the files of an uninterrupted run; the directories too, unless no legacy file was left, and then it changes nothing |
| `Migration.RepeatedCrashes` | src/migrate_v1_to_v2.rs:17-21 | the same after any number of interrupted runs in a row |
| `Migration.MigratedIsStable` | src/migrate_v1_to_v2.rs:8-15 | a completed run leaves no legacy file, or changed nothing because one does not parse; another run changes nothing |
| `Migration.OthersUntouched` | src/migrate_v1_to_v2.rs:170-227 | at every crash point all other files are as they were, an existing `config.lua` keeps its text as a prefix, and a run that does not write leaves the temporary file alone |
| `Migration.TmpLostIffWritten` | src/migrate_v1_to_v2.rs:218-227 | a file called `config.lua.tmp` does not survive a completed run if and only if that run writes `config.lua` |
| `Migration.TmpLost` | src/migrate_v1_to_v2.rs:218-240 | a directory in which it is lost |
| `Migration.StampedReads` | src/migrate_v1_to_v2.rs:229-240 | a stamped script reads as it did, with one write to a field that is not mirrored, or is refused if it comes to a `return` |
| `Migration.OwnLuaText` | src/migrate_v1_to_v2.rs:82-97 | whatever a `config.lua` says, a completed run keeps its text or appends the stamp |
| `Migration.OwnLuaKept` | src/migrate_v1_to_v2.rs:82-97 | a directory whose `config.lua` the reader knows resolves after migration, under any plan, as it did before, whatever YAML it held; where a stamp comes behind a `return`, Lua refuses the script |
| `Migration.ReturnRefused` | src/migrate_v1_to_v2.rs:229-240 | a directory in which it does |
| `DirectoryMeaning.DirectoryTranslated` | src/migrate_v1_to_v2.rs:78-97 | a directory without one resolves, from the text on disk, to the embedded defaults overridden by its files: each text or number is the local overlay's if it has one there, otherwise the base file's; an overlay that is no mapping silences its base, and the two `models` are layered in the same way; under any plan it resolves to what the plan makes of that; it fails to exactly for a negative headroom, and nothing changes if a file does not parse |
| `DirectoryMeaning.MergedAt` | src/migrate_v1_to_v2.rs:345-397 | what stands at a key of the merged files, from what stands there in each |
| `DirectoryMeaning.LegacyRead` | src/migrate_v1_to_v2.rs:345-379 | the files can be read if and only if each that is there parses |
| `Migration.NegativeHeadroom` | src/migrate_v1_to_v2.rs:268-270 | a directory that says `headroom: -1` migrates to one that does not resolve |
| `Migration.PruneInterrupted` | src/migrate_v1_to_v2.rs:194-216 | a directory that keeps an empty `phases` after an interrupted run, however often it is rerun |
| `ConfigLua.Ravel.Execute` | src/config_lua.rs:194-363 | ties every call to the state function `Exec`; what that function means is stated by `ConfigLua.RunsIffNonNegative`, `ConfigLua.RunFields`, the `Last...Wins` lemmas and `ConfigLua.AppendsInOrder` |
| `ConfigLua.Ravel.CommitConfigTable` | src/config_lua.rs:336-359 | ties the commit to the state function `Committed`, whose meaning is in `ConfigLua.RunFields`, `ConfigLua.ConcatenatesIff` and `ConfigLua.LayersConcatenate` |
| `ConfigLua.Resolve` | src/config_lua.rs:89-133 | runs and commits the layers in order, skipping a missing one; any error is the result |
| `ConfigLua.LayersAsOneRun` | src/config_lua.rs:89-133 | resolving is running the layers that are there, each followed by a commit, as one script over the seed |
| `ConfigLua.LayersConcatenate` | src/config_lua.rs:104-117 | two layers made of setters are their concatenation run as one layer: commits change nothing |
| `ConfigLua.LayersCommitBetween` | src/config_lua.rs:104-117 | for any statements two layers are one with a commit between them |
| `ConfigLua.PlanAfterSetters` | src/config_lua.rs:104-117 | a plan after a layer of setters runs as it would over what that layer resolves to |
| `ConfigLua.ConcatenatesIff` | src/config_lua.rs:104-117 | a first layer may be joined with every layer that could follow if and only if it fails or the commit after it changes nothing |
| `ConfigLua.RunFields` | src/config_lua.rs:208-233 | for any statements, what the accumulator holds and the table shows of each mirrored field, from its setters, direct writes and commits in order |
| `ConfigLua.ConcatenatesByText` | src/config_lua.rs:336-359 | that condition read off the text: a negative headroom is set, or the last access to each mirrored field is a setter, a commit, or a direct write of nil, of a negative headroom or of the value already held |
| `ConfigLua.TableWritesDoNotConcatenate` | src/config_lua.rs:235-251 | on a seed with both known agents, switching the agent by a direct write and setting a model in the next layer tells the two apart |
| `ConfigLua.SettersMirror` | src/config_lua.rs:365-377 | after every setter the table agrees with the accumulator |
| `ConfigLua.RunsIffNonNegative` | src/config_lua.rs:219-233 | a script runs to its end if and only if it sets no negative headroom |
| `ConfigLua.LastScalarWins` | src/config_lua.rs:208-233 | agent and headroom are the last ones set |
| `ConfigLua.LastModelWins` | src/config_lua.rs:235-270 | the model of an agent and phase is the last one written, for the agent active at the time or the one named |
| `ConfigLua.LastProviderWins` | src/config_lua.rs:272-298 | the same for providers |
| `ConfigLua.LastTokenWins` | src/config_lua.rs:300-317 | the same for tokens |
| `ConfigLua.AppendsInOrder` | src/config_lua.rs:319-334 | the appends of a phase are the append calls in order |
| `PhaseLoop.NamesParse` | src/types.rs:23-118 | every phase name written to `phase.md` parses back to its phase |
| `PhaseLoop.PlanRepo.HandleScriptPhase` | src/phase_loop.rs:260-374 | ties a script step, failed ones and what they leave on disk included, to the state function `ScriptStep`, and says which marker a good step leaves on disk and in HEAD; what else it does is stated by `PhaseLoop.TriageStep`, `PhaseLoop.WorkStep`, `PhaseLoop.AnalyseStep`, `PhaseLoop.ReflectStep`, `PhaseLoop.ScriptStepFailsIff` and `PhaseLoop.UnmountedTarget` |
| `PhaseLoop.StepMarkers` | src/phase_loop.rs:270-373 | after a good triage, work, analyse-work or reflect commit `phase.md` says `work`, `analyse-work`, `reflect` or `triage`, on disk and in HEAD |
| `PhaseLoop.TriageStep` | src/phase_loop.rs:286-313 | the step prepares, writes the marker `work`, commits the plan directory as it is on disk beside what was staged outside it, writes the identifier of that commit to `work-baseline`, and commits again |
| `PhaseLoop.WorkStep` | src/phase_loop.rs:318-333 | the same without preparation, with `analyse-work` and `analyse-work-baseline` |
| `PhaseLoop.AnalyseStep` | src/phase_loop.rs:334-353 | the step prepares, writes the marker `reflect`, consumes and applies the spec or commits everything, writes the identifier of the last commit to `reflect-baseline`, and commits the plan directory |
| `PhaseLoop.ReflectStep` | src/phase_loop.rs:354-373 | the same as `PhaseLoop.WorkStep` with `triage` and `triage-baseline` |
| `PhaseLoop.PlanRepo.ApplySpec` | src/git.rs:97-232 | consumes the spec, then commits entry by entry up to an unmounted target, each from a clean index and staging nothing if one of its pathspecs matches nothing, or everything at once; states what it leaves in either case |
| `PhaseLoop.EntryTree` | src/git.rs:138-191 | an entry commits each path it stages as it is on disk and every other as in HEAD, if that changes anything; it stages what its pathspecs match, if each of them matches something |
| `PhaseLoop.EntriesTree` | src/git.rs:138-191 | after the entries, HEAD has each path as on disk if some entry staged it, otherwise as before |
| `PhaseLoop.EntriesApplyIff` | src/git.rs:138-191 | the spec is applied to its end if and only if every target is mounted |
| `PhaseLoop.EntriesStopAt` | src/git.rs:138-191 | otherwise exactly the entries before the first unmounted one are committed |
| `PhaseLoop.ScriptStepFailsIff` | src/phase_loop.rs:260-374 | a script step fails if and only if its preparation does, or the commit spec names an unmounted target |
| `PhaseLoop.UnmountedTarget` | src/git.rs:88-92 | what such a failure leaves: `reflect` on disk, no spec, the earlier entries committed, no baseline; the loop would go on from reflect with nothing left to commit |
| `PhaseLoop.PlanRepo.PhaseLoop` | src/phase_loop.rs:400-497 | the visited events follow one another by steps, agent turns and drains; the loop ends well only after closing a cycle or after an agent turn that left the marker unchanged, stops at once on either, fails only where a turn does, and says what state that turn left |
| `PhaseLoop.OneRun` | src/phase_loop.rs:400-497 | the events of a shorter run are how a longer one from the same start begins, so the number of turns only says how much of the one run is seen |
| `PhaseLoop.ScriptStepCommits` | src/phase_loop.rs:270-373 | after a script step the plan directory is committed as it is on disk, no commit is lost, and the marker, on disk and in HEAD, is `work`, `analyse-work`, `reflect` or `triage` |
| `PhaseLoop.BaselineCarriesMarker` | src/phase_loop.rs:286-372 | the commit recorded by the triage, work and reflect steps exists and already carries the new marker |
| `PhaseLoop.AnalyseBaselineCarriesMarker` | src/phase_loop.rs:334-353 | for the analyse-work step, exactly when it does: HEAD did, there is no spec, or some entry stages the marker when its turn comes |
| `PhaseLoop.EntriesCarry` | src/git.rs:138-191 | after the entries, HEAD carries the marker exactly when it did before or some entry staged it |
| `PhaseLoop.UncoveredSpec` | src/git.rs:138-191 | a commit spec that leaves `phase.md` out makes that baseline miss the marker |
| `PhaseLoop.StalePath` | src/git.rs:149-157 | so does an entry that lists it beside one path that matches nothing |
| `PhaseLoop.RunInvariants` | src/phase_loop.rs:400-497 | over any run and any agent no two script steps are adjacent, and each leaves the plan directory committed with the marker `work`, `analyse-work`, `reflect` or `triage`, the phase that follows |
| `PhaseLoop.CycleOrder` | src/phase_loop.rs:270-497 | under an agent that answers each phase with its commit phase, a run from any phase of the cycle goes through triage, work, analyse-work and reflect in this order, with a commit after each, and ends with the last |
| `PhaseLoop.FirstRunFallback` | src/phase_loop.rs:442-449 | the work turn always finds `work-baseline` on disk; the fallback touches nothing else |
| `PhaseLoop.RunBaselines` | src/phase_loop.rs:286-372 | over any run the recorded baselines carry the marker of the phase that consumes them |
| `PhaseLoop.StaysInCycle` | src/phase_loop.rs:424-437 | if the agent only writes cycle phases the loop never meets an off-cycle one |
| `UtcClock.FormatUnixUtc` | src/debug_log.rs:148-195 | the text shows the in-range calendar instant that many seconds after the epoch, exactly for inputs before the start of year 2^32 |
| `UtcClock.RenderReads` | src/debug_log.rs:191-194 | a reader of the RFC 3339 form reads every rendered instant back as it is |
| `UtcClock.ShownReads` | src/debug_log.rs:148-195 | so what the formatter returns reads as the instant that many seconds after the epoch |
| `UtcClock.OverflowReachable` | src/debug_log.rs:152-167 | there are 64-bit inputs at or after the start of year 2^32 |
| `UtcClock.YearStep` | src/debug_log.rs:160-168 | the year loop's lengths agree with the closed count of leap years |
| `UtcClock.InstantsAreSeconds` | src/debug_log.rs:152-195 | calendar order is time order, so every second has one calendar instant |
| `UtcClock.FormatInverts` | src/debug_log.rs:148-195 | the seconds of an instant are shown as that instant |
| `UtcClock.TextOrder` | src/debug_log.rs:191-194 | up to year 9999 the strings sort as the instants they show |
| `UtcClock.TextOrderIsTimeOrder` | src/debug_log.rs:148-195 | hence as the inputs of the formatter |
| `PromptTokens.SubstituteTokens` | src/prompt.rs:29-72 | for some order of the token map: macro, agent tokens, path tokens, guard |
| `PromptTokens.ReplaceSplits` | src/prompt.rs:36-50 | one replacement splits the text at the leftmost occurrences of the placeholder and joins the parts with the value |
| `PromptTokens.ReplaceRendered` | src/prompt.rs:40-43 | replacing one token in a rendered template expands it everywhere, and nothing else |
| `PromptTokens.ReplaceAllExpands` | src/prompt.rs:41-43 | replacing tokens one after the other, in any order, expands them simultaneously |
| `PromptTokens.SubstitutionExpands` | src/prompt.rs:36-50 | the whole sequence is the staged simultaneous expansion, whatever the hash map's order |
| `PromptTokens.OutcomeUnique` | src/prompt.rs:34-72 | so any two calls return the same |
| `PromptTokens.LeftoverRendered` | src/prompt.rs:52-55 | the guard's expression finds exactly the word-shaped names still standing |
| `PromptTokens.SubstitutionOutcome` | src/prompt.rs:34-72 | exactly when a call succeeds, with which text, and otherwise which names it reports |
| `PromptTokens.ComposesIffBound` | src/prompt.rs:34-72 | with well-layered values it succeeds if and only if every name the template uses is bound |
| `PromptOrder.Commute` | src/prompt.rs:41-43 | two values that do not meet each other's placeholder may be put into any content in either order |
| `PromptOrder.OrdersAgreeIff` | src/prompt.rs:41-43 | for brace-free keys and arbitrary values, all orders of the map give the same text on every content if and only if no value meets the placeholder of another token that stands for anything but itself |
| `PromptOrder.TemplatesAgreeIff` | src/prompt.rs:41-43 | on every template of tokens and inert text, if and only if no value holds such a placeholder or ends in the beginning of it |
| `PromptOrder.CallsAgreement` | src/prompt.rs:34-72 | under the first condition all calls on one content return the same, in every context; where a value meets the placeholder of a token the guard can see, some calls do not |
| `PromptOrder.ReportsStanding` | src/prompt.rs:52-55 | for a name of word characters, the guard reports it exactly when its placeholder stands in the text |
| `PromptOrder.OrderMatters` | src/prompt.rs:34-72 | a value that mentions another token: a call may return the text or a complaint |
| `PromptOrder.OpenBrace` | src/prompt.rs:34-72 | a value of one opening brace, which mentions none: the same |
| `PromptOrder.SameComplaint` | src/prompt.rs:34-72 | two orders that leave different texts and draw one complaint |
| `SanitizerLoop.Sanitize` | scripts/check_errorcode_chains.py:31-91 | keeps a character if and only if it is code or the quote of a string, and blanks all others, keeping their newlines but for one behind a backslash in a string; equals the lexeme-by-lexeme result, unterminated lexemes included |
| `SanitizerLoop.StringLiteral` | scripts/check_errorcode_chains.py:61-74 | covers a string literal up to its quote or the end, escapes two at a time |
| `SanitizerLoop.BlockComment` | scripts/check_errorcode_chains.py:51-60 | covers a block comment, or all but the last character when it does not close |
| `SanitizerModes.SanitizedByClass` | scripts/check_errorcode_chains.py:31-91 | what becomes of each character, by a machine that reads the text from left to right and tells code, comments, strings, escapes and character literals apart |
| `SanitizerModes.LineCommentBlank` | scripts/check_errorcode_chains.py:44-48 | from two slashes in code everything up to the next newline is blank, and there the code goes on |
| `Sanitizer.Pointwise` | scripts/check_errorcode_chains.py:32-35 | same length, and every character is kept or blanked |
| `Sanitizer.Idempotent` | scripts/check_errorcode_chains.py:31-91 | sanitizing again changes nothing |
| `Sanitizer.NoCommentsLeft` | scripts/check_errorcode_chains.py:32-38 | no comment opens anywhere in the result |
| `Sanitizer.NewlinesKept` | scripts/check_errorcode_chains.py:32-35 | all newlines survive if and only if no string literal continues a line with a backslash |
| `Sanitizer.ContinuationExample` | scripts/check_errorcode_chains.py:64-68 | one that does loses its newline |
| `StderrDrain.Drain` | src/agent/common.rs:87-117 | keeps the last 4096 bytes of the transcript, warns exactly once if it was longer and otherwise never, and panics exactly when a window starts inside a character |
| `StderrDrain.TranscriptConcat` | src/agent/common.rs:97-100 | the transcript is the lines in order, each with a newline |
| `StderrDrain.WindowOfWindow` | src/agent/common.rs:99-103 | cutting the cut buffer is cutting the whole transcript |
| `StderrDrain.AsciiNotTorn` | src/agent/common.rs:99-103 | ASCII output never panics |
| `StderrDrain.TornExample` | src/agent/common.rs:101-103 | one line of 2048 two-byte characters does |
| `StderrDrain.TruncateSnippet` | src/agent/common.rs:60-71 | unchanged if it fits, otherwise cut at the last boundary within the limit, with an ellipsis |
| `StderrDrain.TruncationKeepsCharacters` | src/agent/common.rs:60-71 | on UTF-8 text the cut keeps whole characters, and as many as fit |

## Left out

- Graph nodes are strings: the generic node type is modelled at the type the atlas uses.
- The depth of the native stack in the recursive search is unbounded here.
- `edges_touching`, `compute_children`, reference resolution and the other filters of the atlas only add easy members.
- Edges have two participants, and their canonical key is modelled from its description; the ontology crate's validation and loading are not part of this model, and a file that does not load stops the source earlier.
- YAML and JSON parsing is the parameter `parse`; YAML tags and not-a-number keys are not values here.
- `Migration.OwnLuaKept`: speaks of a `config.lua` made of blank lines, short comments, setter calls, the version stamp and a bare `return` at the end; of any other script only its text is described (`Migration.OwnLuaText`).
- Lua is the set of statements a layer executes. Reading text covers what the generator writes: decimal, hexadecimal and Unicode escapes, long literals, long comments, expressions and control flow are not read.
- `WriteAgent` and `WriteHeadroom` take values of the mirrored field's type; a table field of another type makes the source's commit fail.
- Per-agent `thinking` and `params` are not translated by the source; the theorems say they stay as seeded.
- Integer settings are unbounded apart from the 64-bit limit on what the translation reads.
- I/O failures other than a file that does not parse are left out, including an unreadable `config.lua`, as are symbolic links and the guard against paths outside the directory.
- Steps on the disk are ordered and durable; only the write of the temporary file can be seen half done.
- The embedded path list is a parameter that contains neither `config.lua` nor `config.lua.tmp`.
- Git is a working tree, an index and a list of trees with the project directory at the repository root: ignore rules, a staging area shared with sibling projects, git commands that fail for other reasons than an unmatched pathspec, and an unborn HEAD that cannot be reset are left out. Commits in other worktrees are not recorded.
- What the agent does, the preparation before a marker is written, draining requests and parsing the commit spec are parameters, which also say what a failure leaves on disk.
- `PhaseLoop.PlanRepo.PhaseLoop`: runs for a given number of turns, because an agent that keeps moving between phases keeps the source's loop going for ever; the theorems hold of every such prefix, and by `PhaseLoop.OneRun` all of them are prefixes of one run.
- Prompt composition and the snapshots handed to the agent, logging, warnings, headers and other display are left out.
- `PromptTokens.SubstitutionExpands`: speaks of templates, related plans and agent values made of tokens and of text with no doubled opening brace and none at the end, of path values that are such text, and of agent values that mention no other agent key; the same holds of `PromptTokens.OutcomeUnique`, `PromptTokens.SubstitutionOutcome` and `PromptTokens.ComposesIffBound`.
- `UtcClock.RenderReads`: the reader takes years of more than four digits, which RFC 3339 does not have and the formatter writes from year 10000 on.
- `PromptOrder.OrdersAgreeIff`: keys with braces, whose placeholders may overlap, are left out, as in `PromptOrder.TemplatesAgreeIff` and `PromptOrder.CallsAgreement`.
- `PromptOrder.CallsAgreement`: leaves open what calls return where the only values that meet a placeholder meet that of a token the guard cannot tell: not of word characters, named like a built-in token, or with a value that meets its own placeholder. There two texts may draw one complaint (`PromptOrder.SameComplaint`).
- `chain_extent`, `scan_file` and the rest of the chain checker are not part of this model; Python's notion of an alphanumeric character is a parameter.
- Which lines stderr is split into is given: decoding and line splitting belong to the reader.
- `pump_stdout` and process handling are left out.
