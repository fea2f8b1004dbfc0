# A verified model of libloot's sorting, metadata and archive logic

libloot sorts plugins for several games and manages the metadata that the sorting relies on. This project models
the parts of it with the most intricate logic in Dafny and proves what they promise. `dafny verify dfyconfig.toml`
checks everything.

**Graph search.** `Graphs` defines walks, reachability and cycles. `DepthFirst` holds the colouring depth-first search
as a loop with an explicit stack, a small-step machine that specifies it, and the visitors that it reports to.
`CycleDetection` proves that cycle detection finds a cycle exactly if there is one, although the search is restarted
from nodes that are already black, and that what it returns is a genuine simple cycle. `BidirectionalSearch` proves that
the two-ended breadth-first search answers reachability exactly, although it gives up when either queue is empty.

**Groups.** `GroupsGraph` builds the graph of groups and characterises success, errors and the resulting edges.
`GroupMerging` covers the merging of masterlist and userlist groups and shows that the graph does not depend on the
order of definitions. `GroupsPath` is the Bellman-Ford search between groups with its path reconstruction,
`GroupsPathLimit` the exact size up to which its weights express a preference for user edges, and `GroupsPathRounding`
the exact number of user edges up to which its `f32` sums are exact. `GroupNodes` is the order in which groups are
processed, and `GroupNodesLimit` shows groups for which the measured path lengths are not the longest.

**Metadata documents.** `MetadataDocument` is the document with its two collections and the ordered index over them.
Saving with anchors and aliases is split over several modules. `MetadataYaml` gives the trees to be written, `AnchoredYaml`
the writing and reading of anchors, `SharedValues` and `CommonValues` the values that may have one and how they are counted,
`AnchorNames` and `AnchorCounts` their names and how often they are written, and `MetadataWriter` the writer itself.
`DocumentSaving` applies it to a document and its index. `SavedDocuments` proves that reading the result gives what was to
be written, and which values have anchors. `MetadataReader` reads metadata from trees again, `ReadingBack` says exactly what
is read for each value that was written, `Recasing` shows that anchors change a document at most in the case of file names,
and `SavedAndLoaded` puts it together: exactly which documents are unchanged after saving and loading. `Prelude`, over the
string operations in `Text`, models the replacement of a masterlist's prelude and the mapping of positions in the result back
to the two files.

**Merging and conditions.** `PluginMerge` proves the algebra of merging plugin metadata, and `Conditions` that filtering
by conditions distributes over it. `Format` proves that the streaming substitution of placeholders in messages is a
tokenise-then-expand, and `MessageText` that the check of message contents is exactly what makes the choice of a text
by language total.

**Archives.** `Bsa` reads the names of the files in a BSA archive, and `BsaWriter` describes the layout of such archives
and proves that reading one gives exactly the files stored in it; `BsaFormat` says the same of archives whose layout is given
in plain numbers. `ArchiveAssets` proves that the merge-join that
looks for common files agrees with its definition over sets.

Code that changes things step by step is modelled by methods and classes, each proved against a specification: a function
or a relation of its inputs and old state about which the lemmas are proved.

Where the documentation and the code disagree, the model follows the code: merging metadata is documented as replacing the
group if the other is explicit, but an explicit group is kept (`src/metadata/plugin_metadata.rs:177-187`), so it is replaced
exactly in the case of `PluginMerge.GroupReplacedIff`. Groups are documented as sorted by decreasing path length
(`src/sorting/groups.rs:211-213`), but that is the length which the search measures, and it can be less than that of the
longest path (`GroupNodesLimit.MeasuredLengthFallsShort`). Which of several message contents in English is chosen is not
documented: it is the last (`src/metadata/message.rs:141-143`).

## Model

| member | source | states |
|---|---|---|
| `DepthFirst.DepthFirstSearch` | src/sorting/search.rs:109-143 | the stack loop leaves the colours of the small-step machine's run and reports exactly its events, in order, to the visitor |
| `DepthFirst.StepDescends` | src/sorting/search.rs:120-142 | the search terminates from any colours: each turn colours a white node or leaves less on the stack |
| `DepthFirst.CycleDetector.VisitTreeEdge` | src/sorting/search.rs:188-200 | the trail grows by the edge's source unless a cycle has been found |
| `DepthFirst.CycleDetector.VisitBackEdge` | src/sorting/search.rs:204-221 | the trail is extended by the edge's source and, if the edge's target is in it, cut to start there, which ends the detection; otherwise it is left extended |
| `DepthFirst.CycleDetector.FinishNode` | src/sorting/search.rs:225-229 | the trail loses its last vertex unless a cycle has been found |
| `DepthFirst.GroupsPathLengthVisitor.DiscoverNode` | src/sorting/groups.rs:265-270 | the counters after a node has been discovered |
| `DepthFirst.GroupsPathLengthVisitor.FinishNode` | src/sorting/groups.rs:272-274 | the counters after a node has been finished |
| `CycleDetection.FindCycle` | src/sorting/search.rs:81-98 | no cycle is returned exactly if the graph is acyclic, and with unique names a returned cycle lists distinct nodes, each joined to the next by an edge of the reported type and the last to the first |
| `CycleDetection.RunOutcome` | src/sorting/search.rs:109-143 | from any state in which the grey nodes are those on the stack and the finished nodes are ranked, the search ends in a genuine cycle or with every visited node ranked, and the target of every back edge is in the trail |
| `CycleDetection.EveryStateKept` | src/sorting/search.rs:109-143 | at every turn up to the first back edge, the grey nodes are those on the stack, the finished nodes are ranked, and the trail lists the edges between the nodes on the stack |
| `CycleDetection.SearchOutcome` | src/sorting/search.rs:85-97 | the same for each restart, including one from a node that has already been finished, which keeps the ranking |
| `CycleDetection.FoundIsFrozen` | src/sorting/search.rs:187-230 | no later event changes the trail once a cycle has been found |
| `CycleDetection.CutTrailIsCycle` | src/sorting/search.rs:204-221 | cutting the trail at the target of a back edge leaves exactly the vertices of the cycle, with the types of real edges |
| `BidirectionalSearch.BidirectionalBfs` | src/sorting/search.rs:32-78 | true exactly if the target is reachable, after which exactly one intersection has been reported that both search trees contain; no node is expanded in both directions |
| `BidirectionalSearch.ExpandForward` | src/sorting/search.rs:53-60 | every unvisited successor is visited and queued once, with one recorded parent |
| `BidirectionalSearch.ExpandReverse` | src/sorting/search.rs:67-74 | every unvisited predecessor is visited and queued once, with one recorded child |
| `BidirectionalSearch.FrontierComplete` | src/sorting/search.rs:45-77 | when one queue is empty its visited nodes are all that its root leads to, so the node taken from the other queue need not be looked at |
| `BidirectionalSearch.MeetingReaches` | src/sorting/search.rs:48-51 | a node in both trees joins source and target |
| `BidirectionalSearch.PathFinder.VisitForwardBfsEdge` | src/sorting/plugins.rs:982-986 | records the parent of a node and that a path to it exists |
| `BidirectionalSearch.PathFinder.VisitReverseBfsEdge` | src/sorting/plugins.rs:988-992 | records the child of a node and that a path from it exists |
| `BidirectionalSearch.PathFinder.VisitIntersectionNode` | src/sorting/plugins.rs:994-996 | records the intersection |
| `BidirectionalSearch.PathFinder.Path` | src/sorting/plugins.rs:927-978 | following the recorded parents back and the recorded children onward from the intersection gives a walk from source to target, and neither error branch is reachable |
| `BidirectionalSearch.NodePathReaches` | src/sorting/plugins.rs:927-978 | a path of nodes, each joined to the next by an edge, leads from its first node to its last |
| `BidirectionalSearch.FindPath` | src/sorting/plugins.rs:749-761 | a path is found exactly if there is one, it is a walk between the given nodes, and every pair put in the cache is joined by a walk |
| `GroupsGraph.BuildGroupsGraph` | src/sorting/groups.rs:26-57 | succeeds exactly if all groups to load after are defined and the relation is acyclic; an undefined group is named, or a genuine cycle returned |
| `GroupsGraph.AddGroups` | src/sorting/groups.rs:66-109 | the nodes and edges that a list of groups adds, or the first undefined group |
| `GroupsGraph.UpdatedEdgesAt` | src/sorting/groups.rs:99-105 | an edge between two nodes that are joined takes the new type in its place, and otherwise is appended |
| `GroupsGraph.UpdatedEdgesMembers` | src/sorting/groups.rs:99-105 | the other edges stay as they are, and no two nodes are joined twice |
| `GroupsGraph.BuiltGraphMeaning` | src/sorting/groups.rs:26-109 | the graph has one node for each name and one edge for each related pair, which is the user's exactly if the userlist declares it; building fails exactly if a group is undefined, which is then one that is needed |
| `GroupsGraph.RepresentsAcyclic` | src/sorting/groups.rs:52-56 | the graph has a cycle exactly if the load-after relation of both lists has |
| `GroupMerging.MergeGroups` | src/database/mod.rs:360-391 | descriptions are replaced and groups to load after appended in place, new groups are appended, and the relation and the names are the unions of those of the two lists |
| `GroupMerging.MergeMeaning` | src/database/mod.rs:360-391 | the first group of a name takes the last description that the userlist gives, if any, and all its groups to load after in order; the others stay |
| `GroupMerging.NewGroupsAre` | src/database/mod.rs:383-388 | the groups that are added are those with new names, in order and as they are |
| `GroupMerging.DefinitionOrderIrrelevant` | src/sorting/groups.rs:30-31 | reordering groups with distinct names, or the groups that they load after, leaves the graph the same |
| `GroupMerging.DefinitionsDetermineGraph` | src/sorting/groups.rs:26-109 | even if groups are defined several times, the names and the related pairs that all definitions give together determine whether the graph is built, its nodes and its typed edges |
| `GroupsPath.BellmanFord` | src/sorting/groups.rs:138-139 | in an acyclic graph no negative cycle is reported, every distance is attained by a walk and is least, and predecessors are joined to their nodes |
| `GroupsPath.FollowPredecessors` | src/sorting/groups.rs:141-190 | following the predecessors from the goal ends, never fails, and traces a walk from the source whose weight is the distance, or shows that there is none |
| `GroupsPath.TraceBack` | src/sorting/groups.rs:141-193 | the reconstruction is empty exactly if the goal is not reachable and otherwise reports a lightest walk with its edge types |
| `GroupsPath.FindPath` | src/sorting/groups.rs:118-194 | fails exactly if a group is undefined, is empty exactly if there is no path, and otherwise reports a walk with the most user edges and among those the fewest others, in graphs of up to 1,000,002 nodes |
| `GroupsPath.LightestIsPreferred` | src/sorting/groups.rs:123-133 | in graphs of up to that size the lightest walk has the most user edges and among those the fewest others |
| `GroupsPathLimit.PreferenceLimitIsExact` | src/sorting/groups.rs:123-133 | lightest paths are the preferred ones in all graphs of n groups that can be built if and only if n is at most 1,000,002 |
| `GroupsPathLimit.PreferenceHasALimit` | src/sorting/groups.rs:123-133 | masterlist and userlist groups, for any number of groups from 1,000,004, in whose graph no path with a user edge is lightest although there is one |
| `GroupsPathLimit.ChainGraphIsChain` | src/sorting/groups.rs:26-109 | the graph that is built from those lists, node for node and edge for edge |
| `GroupsPathLimit.BuiltIsGroupsGraph` | src/sorting/groups.rs:26-57 | every graph that can be built has distinct names, one edge for each pair of joined nodes and no cycle, which is what the search relies on |
| `GroupsPathRounding.SumsAreExact` | src/sorting/groups.rs:123-139 | in graphs with at most 16 user edges and 2^24 nodes every sum that the search forms in `f32` is exact |
| `GroupsPathRounding.RoundingLimitIsExact` | src/sorting/groups.rs:123-139 | adding up weights in `f32` is exact for all paths with at most a given number of user edges if and only if that is at most 16 |
| `GroupsPathRounding.MasterlistEdgesLost` | src/sorting/groups.rs:123-139 | after 17 user edges no number of masterlist edges changes a distance |
| `GroupNodes.SortedGroupNodes` | src/sorting/groups.rs:214-233 | all nodes once: no node without incoming edges after one with, those without by decreasing measured length, and all that agree in this in their original order |
| `GroupNodes.CountNeverUnderflows` | src/sorting/groups.rs:214-275 | the counter never underflows and ends at zero, and the measured length is the greatest number of nodes on the stack and is witnessed by a walk from the root |
| `GroupNodesLimit.MeasuredLengthFallsShort` | src/sorting/groups.rs:211-275 | three masterlist groups for which the length measured from the only root is less than the number of nodes on a path from it, as a node met early hides the longer path to it |
| `GroupNodesLimit.ShortcutBuilt` | src/sorting/groups.rs:26-57 | the graph that is built from those groups |
| `StableSort.SortBySorted` | src/sorting/groups.rs:59-64 | sorting sorts |
| `StableSort.SortByStable` | src/sorting/groups.rs:230-232 | elements that tie stay in their original order |
| `MetadataDocument.MetadataDocument.LoadFromStr` | src/metadata/metadata_document.rs:228-326 | the document stands for the loaded entries, messages, tags and groups, or nothing at all has changed and the first error is returned |
| `MetadataDocument.ReadPlugins` | src/metadata/metadata_document.rs:252-271 | the map, the list and the ordered names index the plugins read, or the first element that does not parse or repeats a specific name is reported with the earlier entry's name |
| `MetadataDocument.ReadGroups` | src/metadata/metadata_document.rs:295-316 | the groups read with the default group first if it was missing, or the first that does not parse or repeats a name |
| `MetadataDocument.PluginsLoadIff` | src/metadata/metadata_document.rs:252-271 | plugins load exactly if all parse and no specific name occurs twice |
| `MetadataDocument.GroupsLoadIff` | src/metadata/metadata_document.rs:295-312 | groups load exactly if all parse and no name occurs twice |
| `MetadataDocument.LoadedIsConsistent` | src/metadata/metadata_document.rs:228-326 | a successful load gives no duplicate specific entries, distinct group names and the default group |
| `MetadataDocument.MetadataDocument.SetPluginMetadata` | src/metadata/metadata_document.rs:465-477 | a known specific entry takes the value in its place, any other entry is appended, and the index stays consistent |
| `MetadataDocument.MetadataDocument.RemovePluginMetadata` | src/metadata/metadata_document.rs:479-499 | exactly the entries with the name, up to case, are gone, and the index stays consistent |
| `MetadataDocument.MetadataDocument.SetGroups` | src/metadata/metadata_document.rs:448-459 | the given groups, after the default group if they lack it |
| `MetadataDocument.MetadataDocument.Clear` | src/metadata/metadata_document.rs:501-508 | nothing is left, and the index is consistent |
| `MetadataDocument.MetadataDocument.OrderedPlugins` | src/metadata/metadata_document.rs:411-419 | one entry for each name, as no name dangles: the entry itself, or for a regular expression the first with that name |
| `MetadataDocument.MetadataDocument.FindPlugin` | src/metadata/metadata_document.rs:421-442 | the entry for the name merged with all matching regex entries in order, or nothing if that is only a name |
| `MetadataDocument.FoundIff` | src/metadata/metadata_document.rs:421-442 | something is found exactly if some entry for the name or some matching regex entry has more than a name |
| `MetadataDocument.MatchingInOrder` | src/metadata/metadata_document.rs:430-435 | the regex entries that match are merged in the order in which they were added |
| `MetadataDocument.Perform` | src/metadata/metadata_document.rs:228-508 | each operation of a run does to a document what the run says |
| `MetadataDocument.EveryRunIsConsistent` | src/metadata/metadata_document.rs:228-508 | no run of loading, setting, removing and clearing gives two entries for one specific name, and iterating yields as many entries as there are |
| `MetadataDocument.IndexIsExact` | src/metadata/metadata_document.rs:134-141 | up to case, the ordered names are each key of the map once and the name of each regex entry once per entry |
| `MetadataDocument.IndexIsUnique` | src/metadata/metadata_document.rs:134-141 | the fields determine the sequence of entries |
| `MetadataDocument.LookupIs` | src/metadata/metadata_document.rs:411-419 | every ordered name is found, and which entry it gives |
| `MetadataDocument.IterationIsFaithful` | src/metadata/metadata_document.rs:411-419 | iterating gives every entry once in insertion order if and only if regex entries with the same name are the same |
| `MetadataDocument.SecondRegexEntryHidden` | src/metadata/metadata_document.rs:411-419 | after setting two different entries with one regex name, iterating yields the first one twice |
| `MetadataDocument.IterationCanLoseAnEntry` | src/metadata/metadata_document.rs:411-419 | a run of two calls for which this happens |
| `MetadataDocument.RemoveUndoesSet` | src/metadata/metadata_document.rs:465-499 | removing an entry that was newly set gives back the document |
| `MetadataDocument.LastSetWins` | src/metadata/metadata_document.rs:465-477 | of two values set for one specific name the second remains, in the place of the first |
| `MetadataDocument.RemovedExactly` | src/metadata/metadata_document.rs:479-499 | an entry survives a removal exactly if its name differs |
| `CommonValues.OrderedCounts.IncrementFor` | src/metadata/metadata_document.rs:540-549 | returns how often equal values have been counted, and keeps the first of them, in order |
| `CommonValues.OrderedCounts.IntoCommonValues` | src/metadata/metadata_document.rs:551-556 | the values counted more than once, in order of first occurrence |
| `CommonValues.RepeatedAreFirst` | src/metadata/metadata_document.rs:540-556 | each of them is itself the first of the values equal to it, so that a file keeps the case of its first occurrence |
| `CommonValues.Counters.CountMessageValues` | src/metadata/metadata_document.rs:674-693 | logs the message and, unless an equal one has been met, what is inside it |
| `CommonValues.Counters.CountFileValues` | src/metadata/metadata_document.rs:695-721 | logs the file, unless it has only a name and the option leaves such files out, and, unless an equal one has been logged, what is inside it |
| `CommonValues.PluginLog` | src/metadata/metadata_document.rs:585-649 | the values of a plugin are logged list by list in the order in which they are written |
| `CommonValues.DocumentFiles` | src/metadata/metadata_document.rs:585-649 | the files that are counted are exactly those that are logged, with their own case |
| `SharedValues.DocumentHolds` | src/metadata/plugin_metadata.rs:467-521 | the values that may have anchors in the tree of a document, outermost first, in the order in which they are written |
| `SharedValues.LogIsLogIds` | src/metadata/metadata_document.rs:674-721 | what is logged for a tree depends only on the identities of its outermost values |
| `MetadataWriter.GetCommonMetadataValues` | src/metadata/metadata_document.rs:566-658 | the first occurrences of the values that the whole document logs more than once, by kind and in order |
| `SavedDocuments.PairsLog` | src/metadata/metadata_document.rs:566-658 | the values counted are those that writing the document's tree meets |
| `AnchorNames.AnchorIffRepeated` | src/metadata/metadata_document.rs:660-672 | a value has an anchor exactly if it is logged more than once |
| `AnchorNames.AnchorNamed` | src/metadata/metadata_document.rs:723-732 | an anchor is named after its kind and its number within the kind, from one |
| `AnchorNames.AnchorsInjective` | src/metadata/metadata_document.rs:660-732 | no two values of any kinds have the same anchor name |
| `MetadataWriter.YamlEmitter.Write` | src/metadata/yaml/emit.rs:167-187 | a value with an anchor is written once with it and then as an alias |
| `MetadataWriter.YamlEmitter.EmitCommonValues` | src/metadata/metadata_document.rs:734-780 | the common section lists the values that do not already have a written anchor, files with the case of their first occurrence |
| `MetadataWriter.Save` | src/metadata/metadata_document.rs:328-397 | the tree that is written for a document and its options |
| `DocumentSaving.SaveDocument` | src/metadata/metadata_document.rs:328-397 | what is written for a document is what iterating over its index yields |
| `DocumentSaving.SavingKeepsEntriesIff` | src/metadata/metadata_document.rs:335-386 | exactly the entries with more than a name are written, each once and in order, if and only if regex entries with the same name are the same |
| `DocumentSaving.SecondRegexEntryNotSaved` | src/metadata/metadata_document.rs:335-386 | of two different entries set for one regex name the second is not saved, and the first is saved twice or not at all |
| `AnchoredYaml.EmitReads` | src/metadata/yaml/emit.rs:167-187 | reading what was emitted gives the value: no alias comes before its anchor, none refers to an enclosing value, and no anchor is defined twice |
| `AnchoredYaml.EmitUniform` | src/metadata/yaml/emit.rs:167-187 | all values with one anchor are read as one and the same |
| `SavedDocuments.SavedReadsBack` | src/metadata/metadata_document.rs:328-397 | whatever the options, a saved document reads back as its common section and the document written without anchors, up to the case of file names |
| `SavedDocuments.SavedReadsBackExactlyIff` | src/metadata/metadata_document.rs:328-397 | what a reader sees of the document is unchanged if and only if no two equal files that may have anchors differ in the case of their names |
| `SavedDocuments.CaseCanBeLost` | src/metadata/metadata_document.rs:328-397 | a document for which it is not, whenever files with only a name may have anchors |
| `AnchoredYaml.FoldedAndStripped` | src/metadata/yaml/emit.rs:167-187 | trees that differ at most in the case of file names are told apart by what a reader sees of them |
| `Recasing.SavedReadsBackAs` | src/metadata/metadata_document.rs:328-397 | what reads back is the tree of a document that differs at most in the case of file names, with no name that was not in the saved one, and is that document if and only if case is kept |
| `ReadingBack.ContentsRead` | src/metadata/message.rs:249-278 | written contents are read exactly if they are valid, and a single text in the default language |
| `ReadingBack.MessageReads` | src/metadata/message.rs:280-320 | a written message is read exactly if it has contents, which are valid, and a valid condition or none |
| `ReadingBack.SubstitutedMessageReads` | src/metadata/message.rs:280-318 | a message with substitutions is read with them in all its texts, or not at all |
| `ReadingBack.FormatAllIff` | src/metadata/message.rs:304-309 | substitution succeeds exactly if it does in every text, and changes nothing else |
| `ReadingBack.FileReads` | src/metadata/file.rs:161-205 | a written file is read exactly if its details and conditions are valid |
| `ReadingBack.TagReads` | src/metadata/tag.rs:62-101 | a written tag is read exactly if its condition is valid, and as a removal if it is to add a name with a leading minus sign |
| `ReadingBack.CleaningDataReads` | src/metadata/plugin_cleaning_data.rs:128-168 | written cleaning data are read exactly if their numbers, details and condition are valid |
| `ReadingBack.LocationReads` | src/metadata/location.rs:43-76 | every written location is read as it was |
| `ReadingBack.GroupReads` | src/metadata/group.rs:75-92 | every written group is read as it was |
| `ReadingBack.PluginReads` | src/metadata/plugin_metadata.rs:411-455 | a written plugin is read exactly if its name is valid and everything in it can be read, and as what the parts are read as |
| `SavedAndLoaded.SavedLoads` | src/metadata/metadata_document.rs:228-397 | loading a saved document succeeds exactly if everything written can be read and no name is repeated, and what it gives |
| `SavedAndLoaded.SavedLoadsUnchangedIff` | src/metadata/metadata_document.rs:228-397 | saving and loading gives back the same document if and only if case is kept, everything can be read, and there are no plugins with only a name, single contents in other languages, additions that look like removals, or a lone group that is not the plain default |
| `SavedAndLoaded.SavedDocumentRestoredIff` | src/metadata/metadata_document.rs:228-419 | the same for the index of a document in which no regex entry is hidden |
| `SavedAndLoaded.DescriptionCanBeLost` | src/metadata/metadata_document.rs:368-371 | the description of the default group is lost if there is no other group |
| `SavedAndLoaded.LoadsUpToCase` | src/metadata/metadata_document.rs:228-326 | whether a document can be loaded does not depend on the case of file names |
| `SavedDocuments.SavedPlain` | src/metadata/metadata_document.rs:328-397 | without anchors the document is written as it is |
| `AnchoredYaml.EmitWrites` | src/metadata/metadata_document.rs:566-658 | what is written, counting aliases, is what was logged |
| `SavedDocuments.WritesAreLogged` | src/metadata/metadata_document.rs:328-397 | every value is written, in full or as an alias, as often as it was counted, and once more if it is in the common section |
| `AnchorCounts.CountedOnceMore` | src/metadata/metadata_document.rs:734-780 | writing values first, with all that is inside them, adds one to how often each of them is met in what follows and changes nothing else |
| `AnchorCounts.SectionComesFirst` | src/metadata/metadata_document.rs:734-780 | the common section gives the repeated values of each kind in the order in which they are numbered |
| `SavedDocuments.AnchoredIffWrittenTwice` | src/metadata/metadata_document.rs:524-732 | with or without a common section, a value has an anchor exactly if it occurs at least twice in the saved document, and anchors are numbered in the order of first occurrence there |
| `SavedDocuments.CommonSectionHoldsAllAnchors` | src/metadata/metadata_document.rs:734-780 | with a common section, no anchor is defined after it |
| `Prelude.SplitOnPrelude` | src/metadata/metadata_document.rs:869-903 | the scan for the next top-level key splits the masterlist as specified |
| `Prelude.StartMeaning` | src/metadata/metadata_document.rs:917-940 | the text before the prelude ends in the first prelude key that stands at the start of a line |
| `Prelude.SplitMeaning` | src/metadata/metadata_document.rs:869-903 | the parts make up the masterlist, every further line of the prelude starts with a space, `#` or a line break, and the text after it with none of them |
| `Prelude.SplitIff` | src/metadata/metadata_document.rs:869-940 | the parts are exactly those of which the first ends in the first `prelude:` that starts a line, and the second at the first line break followed by anything but a space, `#` or a line break; there are none exactly if no line starts with that key |
| `Prelude.IndentIsByLine` | src/metadata/metadata_document.rs:942-952 | three global replacements amount to indenting line by line |
| `Prelude.IndentedPreludeLines` | src/metadata/metadata_document.rs:942-952 | the lines of the indented prelude are those of the prelude, indented one by one |
| `Prelude.IndentedLineKeeps` | src/metadata/metadata_document.rs:942-952 | exactly which characters of a line are still there, two columns on |
| `Prelude.IndentKeepsLines` | src/metadata/metadata_document.rs:942-952 | indenting keeps the number of lines, and no indented line can end the prelude |
| `Prelude.ReplacedTextSplits` | src/metadata/metadata_document.rs:802-854 | the replaced text splits at the same key, with the text before and after unchanged and the new prelude between |
| `Prelude.LastWriteWins` | src/metadata/metadata_document.rs:802-854 | replacing with one prelude and then another is replacing with the other |
| `Prelude.ReplacePreludeSucceeds` | src/metadata/metadata_document.rs:830-848 | the overflow error is unreachable for texts that fit in memory |
| `Prelude.ReplacementIs` | src/metadata/metadata_document.rs:802-854 | the whole result in terms of line breaks: the text, the span and the number of lines added, or an error exactly if that number does not fit in 64 bits |
| `Prelude.ReplacingSplices` | src/metadata/metadata_document.rs:818-854 | how both texts are made up, and that the computed span gives the lines of the new prelude and the number of lines added |
| `Prelude.LinesBeforeUnchanged` | src/metadata/error.rs:190-198 | a position up to the prelude key is reported with its line and column in the original masterlist |
| `Prelude.LinesInsideMapped` | src/metadata/error.rs:179-189 | every position in the new prelude is reported on the line of the prelude file with the number of the line it stands on, which has that line's text, indented, and two columns to the left |
| `Prelude.CharactersInsideMapped` | src/metadata/error.rs:179-189 | every character of the prelude file that the indentation keeps is reported with its own line and column in that file |
| `Prelude.LinesAfterMapped` | src/metadata/error.rs:163-178 | a position after the new prelude is reported with its line and column in the original masterlist |
| `Prelude.ParseError.Adjust` | src/metadata/error.rs:102-113 | the error takes the adjusted position and whether it is in the prelude |
| `PluginMerge.MergeSlices` | src/metadata/plugin_metadata.rs:370-379 | the target followed by the elements of the source that are not in it |
| `PluginMerge.MergeMeaning` | src/metadata/plugin_metadata.rs:370-379 | the target stays as it is and is followed, in order, by the elements of the source that equal none of its own |
| `PluginMerge.KeysDecide` | src/metadata/file.rs:123-127 | files are equal up to the case of their names, other elements only when they are the same |
| `PluginMerge.ContainsMerge` | src/metadata/plugin_metadata.rs:370-379 | the merged list has exactly the elements of the two |
| `PluginMerge.MutableMetadata.MergeMetadata` | src/metadata/plugin_metadata.rs:180-204 | the fields after merging, which the laws below are about |
| `PluginMerge.MergedAssociative` | src/metadata/plugin_metadata.rs:180-204 | merging is associative |
| `PluginMerge.NameOnlyIsIdentity` | src/metadata/plugin_metadata.rs:180-217 | metadata with only a name changes nothing when merged, and merging into it changes only the name |
| `PluginMerge.NameOnlyIffBoth` | src/metadata/plugin_metadata.rs:206-217 | a merge has only a name exactly if both parts have |
| `Metadata.NameOnlyIff` | src/metadata/plugin_metadata.rs:206-217 | metadata have only a name exactly if they are those of a new entry with that name |
| `Metadata.RegexNameIff` | src/metadata/plugin_metadata.rs:366-368 | the five characters that make a name a regular expression |
| `PluginMerge.LeftmostWins` | src/metadata/plugin_metadata.rs:180-187 | over any number of merges the first name and the first explicit group remain |
| `PluginMerge.GroupReplacedIff` | src/metadata/plugin_metadata.rs:177-187 | an explicit group replaces another exactly if that one is not explicit or the same |
| `PluginMerge.MergeAllSplits` | src/metadata/metadata_document.rs:430-435 | merging entries one by one is merging their merge |
| `Conditions.FilterIs` | src/database/conditions.rs:67-96 | filtering succeeds exactly if every condition evaluates, and keeps the elements whose conditions hold |
| `Conditions.RemainingMeaning` | src/database/conditions.rs:7-51 | exactly the elements without a condition or with a true one remain, and cleaning data by their checksum conditions unless they belong to a regex entry |
| `Conditions.EvaluationMeaning` | src/database/conditions.rs:7-58 | evaluation succeeds exactly if all conditions that are looked at can be evaluated, and gives what remains or nothing if that is only a name |
| `Conditions.FilteringDistributes` | src/database/conditions.rs:7-58 | for metadata of one plugin, evaluating the conditions of a merge succeeds exactly if it does for both parts, and gives the merge of the results |
| `Conditions.NothingRemainsIff` | src/database/conditions.rs:53-57 | nothing remains of a merge exactly if nothing remains of either part |
| `Format.Format` | src/metadata/message.rs:322-389 | the streaming automaton gives the result or the error of tokenising and expanding |
| `Format.NumeralParses` | src/metadata/message.rs:351-352 | the decimal numeral of a number that fits in 64 bits is its index, with or without a plus sign |
| `Format.IndexByDigits` | src/metadata/message.rs:351-352 | a digit stands for itself, and one more digit makes an index ten times as large and adds to it, unless that does not fit in 64 bits |
| `Format.IndexIsDigits` | src/metadata/message.rs:351-352 | nothing else is an index |
| `Format.NumeralExpands` | src/metadata/message.rs:322-389 | between any texts, the numeral of an index in braces stands for the substitution with that index |
| `Format.FormatsOnePlaceholder` | src/metadata/message.rs:322-389 | the whole result for a text with one placeholder, whatever the substitutions |
| `Format.TokensSpellText` | src/metadata/message.rs:322-389 | tokens spell the text exactly, and each placeholder is a pair of braces around an index with no brace between |
| `Format.EveryPairIsPlaceholder` | src/metadata/message.rs:322-389 | every such pair is a placeholder, whatever stands around it |
| `Format.SplitHoldsTokens` | src/metadata/message.rs:331-377 | the slices between braces, read with the one pending brace, hold the tokens of the text |
| `Format.FormatSucceedsIff` | src/metadata/message.rs:322-389 | formatting succeeds exactly if every placeholder is in range and every substitution is used |
| `Format.FirstIsLowestUnused` | src/metadata/message.rs:379-385 | the substitution reported as unused is the lowest one |
| `Format.NoPlaceholdersVerbatim` | src/metadata/message.rs:322-389 | whatever the substitutions, a text without placeholders stands for itself, and only the first substitution can be reported |
| `MessageText.SelectMessageContent` | src/metadata/message.rs:111-150 | the single text, or else the first in the language, the first in a related language, or the last in the default language |
| `MessageText.SelectedMeaning` | src/metadata/message.rs:111-150 | which of the texts is chosen, by its place in the list |
| `MessageText.NothingSelectedIff` | src/metadata/message.rs:111-150 | when no text is chosen |
| `MessageText.RelatedIff` | src/metadata/message.rs:122-137 | languages are related if one is the other followed by an underscore and more |
| `MessageText.ValidContentsAlwaysSelect` | src/metadata/message.rs:216-230 | contents pass the check and are not empty exactly if a text is chosen for every language |
| `ArchiveAssets.DoAssetsOverlap` | src/archive/mod.rs:14-36 | true exactly if some folder in both archives' assets has a common file |
| `ArchiveAssets.OverlapSymmetric` | src/archive/mod.rs:14-36 | overlapping is symmetric |
| `ArchiveAssets.OverlapOfArchives` | src/archive/parse.rs:16-52 | the assets of several archives overlap with others exactly if those of one readable archive do |
| `ArchiveAssets.AssetsInArchives` | src/archive/parse.rs:16-52 | the union of the assets of the archives that could be read |
| `ArchiveAssets.ListingExists` | src/archive/mod.rs:12 | every map of assets has a listing in key order |
| `Bsa.ReadAssets` | src/archive/bsa.rs:131-153 | reading the bytes after the type identifier gives the specified result or error |
| `Bsa.TablesOf` | src/archive/bsa.rs:155-189 | the flags are checked in order and the three tables read, or the data ends too early |
| `Bsa.FoldersOf` | src/archive/bsa.rs:191-202 | the named folders of the records in order, or the first failure |
| `Bsa.Zip` | src/archive/bsa.rs:204-221 | each file name is added to the folder name at the same position |
| `Bsa.TrimSlashes` | src/archive/bsa.rs:262-280 | slashes of both kinds are removed at both ends |
| `Bsa.NormalisePath` | src/archive/mod.rs:38-51 | each byte is lowered or turned into a backslash in place, except those outside ASCII |
| `Bsa.CleanPathShape` | src/archive/bsa.rs:246-280 | clean paths have no slash at either end, no forward slash and no upper-case letter |
| `Bsa.CleanPathIdempotent` | src/archive/bsa.rs:246-280 | cleaning a clean path changes nothing if and only if it does not end in a null byte |
| `Bsa.CleanPathMeaning` | src/archive/bsa.rs:246-280 | which stretch of a path remains, and what becomes of each of its bytes |
| `BsaWriter.HeaderReadsBack` | src/archive/bsa.rs:28-84 | the header that was written is read |
| `BsaWriter.RecordReadsBack` | src/archive/bsa.rs:91-129 | the count and the offset of a folder record are read, in both layouts |
| `BsaWriter.NameReadsBack` | src/archive/bsa.rs:224-244 | a length-prefixed name with its null terminator is read |
| `BsaWriter.FileNamesSplit` | src/archive/bsa.rs:209-212 | file names that end in null bytes are read, followed by one empty name |
| `BsaWriter.ReadWrittenArchive` | src/archive/bsa.rs:131-222 | reading any well-formed archive of any supported version gives exactly the clean names of the folders and files stored in it |
| `BsaWriter.WrittenMeaning` | src/archive/bsa.rs:216-221 | which pairs of a folder and a file those are |
| `BsaWriter.ArchiveExists` | src/archive/bsa.rs:131-222 | for every supported version there is a well-formed archive of any folders that are not too large together |
| `BsaWriter.FoldersReadAsStored` | src/archive/bsa.rs:131-222 | and reading it gives exactly the clean names of the files of those folders |
| `BsaFormat.ReadByNumbers` | src/archive/bsa.rs:28-222 | every archive that is laid out as the numbers say, byte by byte for versions 103, 104 and 105, is read as exactly its files |
| `BsaFormat.HeaderRefusedIf` | src/archive/bsa.rs:131-172 | which bytes of a header make reading fail, and with which error |
| `BsaFormat.ShortTablesRefused` | src/archive/bsa.rs:174-189 | reading fails if the tables that the header announces are not all there |
| `BsaFormat.FirstFolderRefusedIf` | src/archive/bsa.rs:191-244 | which bytes of the first folder record and its block make reading fail, and with which error |

## Left out

- GroupsPath.FindPath: weights are exact integers, where the code adds `f32` values. GroupsPathRounding gives the exact bound of 16 user edges up to which the two agree; what is found beyond it is not modelled.
- GroupsPathLimit.PreferenceLimitIsExact: stated for exact sums, so it is a limit of the weights themselves. With more than 16 user edges rounding comes first, see GroupsPathRounding.
- GroupsPath.BellmanFord: the search of the petgraph library is modelled from its documented behaviour, as its source is not part of this model.
- CycleDetection.FindCycle: the names of nodes stand for the function that names them, and that the cycle is genuine is stated for unique names, as the trail is cut at the first vertex with the target's name.
- BidirectionalSearch.BidirectionalBfs: stated for the visitor that finds paths, where the code takes any visitor.
- BidirectionalSearch.FindPath: only this visitor of src/sorting/plugins.rs is modelled. The path cacher records a subset of what it records, and the rest of plugin sorting is not modelled.
- MetadataDocument.MetadataDocument.LoadFromStr: what scanning a text as YAML gives, with merge keys resolved, is a parameter, and errors have the index of an element in place of a position in the text. For saved documents SavedAndLoaded.Scanned is that parameter.
- MetadataDocument.MetadataDocument.FindPlugin: compiling and matching regular expressions are parameters.
- MetadataWriter.Save: the result is a tree. Indentation, quoting and flow style of the text, and writing the file, are not modelled, and so not that a text which is written without quotes could be read as another scalar.
- MetadataReader.ReadMessage: only that reading fails is modelled and not why. Compiling regular expressions, parsing conditions and trimming and folding names are parameters of the readers. The keys of a mapping are unique and none of them is a merge key, as in all trees that are written.
- SavedAndLoaded.SavedDocumentRestoredIff: stated for documents in which regex names decide their entries; that others are not saved as they are is DocumentSaving.SavingKeepsEntriesIff.
- GroupMerging.DefinitionOrderIrrelevant: stated for lists that define no group twice, as the edges of two definitions of one group are added in the order of the definitions. GroupMerging.DefinitionsDetermineGraph has no such restriction.
- Bsa.ReadAssets: a folder record's offset below the baseline, with which the subtraction overflows, is an error of its own in the model. Offsets and sizes are those of a 64-bit platform.
- Bsa.FoldersOf: as for Bsa.ReadAssets.
- Prelude.LinesInsideMapped: columns are integers, so the column of a position within the indentation is negative where the code's subtraction overflows.
- Prelude.ParseError.Adjust: as for Prelude.LinesInsideMapped.
- Prelude.SplitOnPrelude: positions count characters and not bytes. The branches that log failures to split at a position are not reachable.
- Conditions.FilteringDistributes: evaluating a condition is a parameter, as the condition interpreter is a separate library. Which of several failing conditions is reported first is not compared between a merge and its parts.
- MetadataDocument.MetadataDocument.Clear: it leaves no default group, as the code does.
- File names are compared by a folded text that comes with them; how case is folded is not modelled, and names that contain a character of regular expressions are told by the folded text.
- Groups are sorted by comparing names character by character, where the code compares bytes.
- Logging, and branches that only report internal errors that are proved unreachable.
- BA2 archives, which have another layout and no branching of interest beyond it.
- Adding edges between plugins, tie-breaking and topological sorting in src/sorting/plugins.rs.
- Rewriting capturing groups of regular expressions, and trimming the extension of ghosted plugins.
- The C++, Python and Node.js wrappers, and the display of errors.
