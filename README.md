# Brain_Vibe topic consolidation, in Dafny

This project models the core of Brain_Vibe's backend. It proves what that
core promises.

The centre is the **topic consolidation engine** of the FastAPI backend.
- An LLM proposes topics for a project.
- `normalize_topic_id` and `find_similar_topic` resolve each proposal, and
  each prerequisite label, against the global topic store. Resolution is
  first match in the store's iteration order.
- `process_topics_from_gemini` ingests a batch. It creates new topics and
  placeholders, attaches everything to the project, and rebuilds the
  project's prerequisite graph and the global "master brain" graph.
- The store (`db.py`) holds topics and projects keyed by id, plus the
  derived graphs, and offers attach, status update and the graph loaders.

Several small, self-contained cores sit beside it:
- the unified-diff counter `parse_diff_summary`;
- the "Title:/Description:/Prerequisites:" parser of the Gemini analyzer;
- `_filter_diff` and `_save_topic` of the diff analyzer;
- the validator `validate_topic`;
- the scheduler's change tracking and due-scan selection;
- the CLI's `load_ignore_patterns`.

Modules, one per file:
- `Text` (text.dfy): the string operations the sources use (`lower`,
  `strip`, `split`, `join`, `replace`, `in`, `startswith`), over an ASCII
  character model.
- `TopicIds` (topic_ids.dfy): `normalize_topic_id` and `find_similar_topic`.
- `TopicStore` (topic_store.dfy): the store as a class `Store`.
  - Fields: `topics`, `projects`, `topicOrder` (the topics' iteration order),
    `projectGraphs` and `masterBrain`.
  - A graph is a node set, node attributes and a set of
    (prerequisite, topic) edges.
- `Proposals` (proposals.dfy): the proposal record, the skip rule, and the
  records a batch creates.
- `Batch` (batch.dfy): the batch as a fold over a snapshot of the store. It
  also holds the invariant every step keeps and what a whole batch
  guarantees.
- `GraphRebuild` (graph_rebuild.dfy): `update_graph_structures`.
- `Ingestion` (ingestion.dfy): `process_topics_from_gemini` as an imperative
  method on a `Store`. It is proved to end in the state the `Batch` fold
  describes.
- `DiffAnalyzer`, `GeminiAnalyzer`, `GitUtils`, `LlmUtils`, `Scheduler`,
  `Track`: one module per smaller core.

Each loop of the modelled source is a method with a loop. Each method is
proved equal to a specification function, and the properties are proved
about that function. Two loops have both forms:
- the scan in `find_similar_topic` is the method `TopicIds.FindSimilar`. Its
  specification is the function `TopicIds.FindSimilarTopic`, which the
  store's fold uses.
- the results loop of `scan_project` is the method
  `Scheduler.CollectResults`. Its specification is `Scheduler.ChangedPaths`.

The conversion loops of `get_master_brain_data` and
`get_project_graph_data` are left out (see below).

## Model

| member | source | states |
|---|---|---|
| TopicIds.NormalizeTopicId | backend/app/services/gemini_service.py:129-132 | the normalised id is never longer than the input; it holds only letters, digits and `_`, no upper-case letter and no space |
| TopicIds.NormalizeConcat | backend/app/services/gemini_service.py:129-132 | normalisation works character by character: normalising a concatenation concatenates the normalised parts |
| TopicIds.NormalizeWhitespace | backend/app/services/gemini_service.py:129-132 | a space becomes exactly one `_`; any other whitespace character disappears |
| TopicIds.NormalizeUpper | backend/app/services/gemini_service.py:129 | an upper-case letter becomes its lower-case form |
| TopicIds.NormalizeFixed | backend/app/services/gemini_service.py:132 | a string of lower-case letters, digits and `_` is its own normal form |
| TopicIds.NormalizeIdempotent | backend/app/services/gemini_service.py:129-132 | normalising twice is normalising once |
| TopicIds.FirstSimilar | backend/app/services/gemini_service.py:156-164 | the scan stops at the first key, in iteration order, that is similar to the input; no earlier key is similar |
| TopicIds.FindSimilarTopic | backend/app/services/gemini_service.py:137-166 | the result is None or a stored key. An exact key match wins over every other candidate. Otherwise the result is the first key whose id and display overlap the input's, and None means no key does |
| TopicIds.FindSimilar | backend/app/services/gemini_service.py:137-166 | the scanning loop returns exactly what FindSimilarTopic gives: the exact key, else the first key in the store's order whose id and display both overlap the input, else None |
| TopicIds.FindSimilarOverlaps | backend/app/services/gemini_service.py:152-164 | a found topic's id is a substring of the normalised input or contains it |
| TopicIds.FindSimilarEmptyInput | backend/app/services/gemini_service.py:158-164 | an empty input matches the first stored key (or the key "" if stored), because "" is a substring of every id and display |
| TopicIds.FindSimilarOverMerges | backend/app/services/gemini_service.py:156-164 | "react" resolves to a stored "react_router" whose display is "React Router": substring similarity merges distinct topics |
| TopicIds.FirstSimilarPrefix | backend/app/services/gemini_service.py:156-164 | keys appended after a match do not change which key the scan finds |
| TopicIds.FirstSimilarFrame | backend/app/services/gemini_service.py:156-164 | the scan depends only on which listed keys are stored and on their display names |
| TopicIds.FindSimilarStable | backend/app/services/gemini_service.py:149-164 | a successful resolution is unchanged by topics added later at the end of the order, unless the added key is the exact normalised id |
| TopicStore.WithProject | backend/app/database/db.py:73-79 | the project id ends up in the topic's `projects`, appended at the end only when absent; nothing else changes and no id is duplicated |
| TopicStore.WithTopic | backend/app/database/db.py:66-70 | the topic id ends up in the project's `topic_ids`, appended at the end only when absent; nothing else changes and no id is duplicated |
| TopicStore.SetNodeStatus | backend/app/database/db.py:127-128 | only the status attribute of that node changes; nodes, edges and every other node are untouched, and a closed graph stays closed |
| TopicStore.MirrorStatusSnoc | backend/app/database/db.py:131-133 | each project of the topic whose graph has the node gets the new status, one project after another |
| TopicStore.MirrorStatusClosed | backend/app/database/db.py:131-133 | mirroring keeps the set of project graphs, changes only the status of that topic's node in them, and keeps them closed |
| TopicStore.PrereqEdgesMember | backend/app/database/db.py:27-29 | the loader adds the edge (p, t) exactly when t lists p and p is already a node |
| TopicStore.LoadInOrderClosed | backend/app/database/db.py:22-47 | the loaders add exactly the stored ids as nodes, each with its stored record, and every edge has both ends in the graph |
| TopicStore.LoadInOrderWithinRule | backend/app/database/db.py:39-47 | every edge the order-dependent loader finds is also an edge by the rule of update_graph_structures |
| TopicStore.LoadMissesLaterPrerequisite | backend/app/database/db.py:170-178 | a prerequisite stored after the topic that needs it gets no edge from the loader, although the rule of update_graph_structures has that edge |
| TopicStore.StoredIds | backend/app/database/db.py:114 | the ids kept are exactly the listed ids that are stored, never more than listed, and without duplicates when the list has none |
| TopicStore.StoredIdsAt | backend/app/database/db.py:114 | the kept ids keep the list's order: kept id k is listed id idx[k], and the indices strictly increase |
| TopicStore.StoredRecords | backend/app/database/db.py:114 | one stored record per kept id, in list order |
| TopicStore.Store.constructor | backend/app/database/db.py:11-16 | the store starts with the given topics and projects, no project graphs and an empty master graph |
| TopicStore.Store.SaveTopic | backend/app/database/db.py:55-57 | the record is stored under its id; a new id goes to the end of the iteration order and an existing id keeps its place |
| TopicStore.Store.AddTopicToProject | backend/app/database/db.py:60-81 | returns False and changes nothing for an unknown project. Otherwise it attaches the topic to the project, and links the project to the topic only on a fresh attach of a stored topic |
| TopicStore.Store.GetProject | backend/app/database/db.py:89-93 | the project record when the id is stored, None otherwise |
| TopicStore.Store.GetTopic | backend/app/database/db.py:101-105 | the topic record when the id is stored, None otherwise |
| TopicStore.Store.GetProjectTopics | backend/app/database/db.py:108-114 | [] for an unknown project; otherwise the stored records of its topic_ids in order, skipping ids with no record |
| TopicStore.Store.UpdateTopicStatus | backend/app/database/db.py:117-135 | False and no change for an unknown topic; otherwise only the status changes, mirrored into the master graph and into the graphs of the topic's projects |
| TopicStore.Store.GetMasterBrainData | backend/app/database/db.py:138-159 | every edge of the master graph has both ends among its nodes, and every node carries its record |
| TopicStore.Store.LoadGraphs | backend/app/database/db.py:19-47 | the master graph and each project's graph are the order-dependent loader's result; graphs of other ids are kept; the data is untouched |
| TopicStore.Store.GetProjectGraphData | backend/app/database/db.py:162-201 | a loaded graph is returned as it is; a stored project's graph is loaded and cached; an unknown project gives an empty graph and no change; the result is closed |
| TopicStore.BuildInOrder | backend/app/database/db.py:22-29 | the loading loop builds the loader's graph |
| TopicStore.MirrorInto | backend/app/database/db.py:131-133 | the mirroring loop produces the mirrored graphs |
| TopicStore.LoadProjectGraphs | backend/app/database/db.py:32-47 | each stored project gets a freshly loaded graph; other graphs are kept; all stay closed |
| Proposals.SkippedAsWrittenAdmitsEmptyId | backend/app/services/graph_service.py:27-29 | the source's guard lets "!!!" through, although it normalises to the empty id, which then resolves to the first stored topic |
| Proposals.Labels | backend/app/services/graph_service.py:25-31 | the labels a batch takes up are non-empty normal forms, at most one per proposal, exactly those of the proposals that are not skipped |
| Proposals.LabelsAt | backend/app/services/graph_service.py:25-31 | the labels come from the unskipped proposals in their order: label k is the normal form of proposal idx[k], the indices strictly increase, and every unskipped proposal has its label |
| Proposals.TitleFrom | backend/app/services/graph_service.py:89 | `str.title()` keeps the length and leaves every non-letter as it is |
| Batch.AddPrereqNoDup | backend/app/services/graph_service.py:80-81 | appending a prerequisite only when absent keeps the list free of duplicates, and the prerequisite is in it |
| Batch.BatchFoldKeeps | backend/app/services/graph_service.py:25-119 | every step keeps the store invariant, and each label taken up so far resolves in the current store to its recorded id, which is attached to the project: earlier topics are visible to later proposals |
| Batch.BatchResult | backend/app/services/graph_service.py:58-116 | one result id per non-skipped proposal, in order; each is stored, attached to the project, overlaps its label and is what the label resolves to in the final store; equal labels get equal ids |
| Batch.ResolvesFunctional | backend/app/services/graph_service.py:34 | resolution is a function of the label |
| Batch.BatchStore | backend/app/services/graph_service.py:33-119 | after a batch, old topics only gained the project and a filled description. New topics are NOT_LEARNED topics of this project alone, attached to it, with stored prerequisites. Only this project's topic_ids grew, and the graphs are not yet touched |
| Batch.PrereqFoldTopic | backend/app/services/graph_service.py:71-107 | the prerequisite loop changes nothing of the new topic but its prerequisites |
| Batch.NewStepRecord | backend/app/services/graph_service.py:61-68 | a new topic is NOT_LEARNED, has `projects == [project_id]`, its display name defaults to its id and its description to "" |
| Batch.NewStepSelfLoop | backend/app/services/graph_service.py:97-110 | a topic listing itself as prerequisite is stored with itself as prerequisite: its placeholder is overwritten by the topic |
| Batch.MatchLosesDescription | backend/app/services/graph_service.py:42-52 | when the project is already listed, the filled description reaches the local copy only, never the store |
| GraphRebuild.BuildRuleShape | backend/app/services/graph_service.py:140-147 | the rebuilt graph's nodes are the topics plus their present prerequisites, and its edges are exactly the present (prerequisite, topic) pairs |
| GraphRebuild.BuildRuleAttrs | backend/app/services/graph_service.py:142 | each rebuilt node carries its stored record |
| GraphRebuild.BuildRuleIsRuleGraph | backend/app/services/graph_service.py:140-162 | rebuilding from the records of a member set gives the rule graph of that set, whatever the order of the records |
| GraphRebuild.AddPrereqEdges | backend/app/services/graph_service.py:145-147 | the inner loop adds an edge from each prerequisite that is a member |
| GraphRebuild.BuildByRule | backend/app/services/graph_service.py:140-147 | the rebuild loop builds the rule graph of its records |
| GraphRebuild.UpdateGraphStructures | backend/app/services/graph_service.py:127-165 | the project's graph becomes the rule graph of its stored topics (empty for an unknown project) and the master graph that of all topics; the data is untouched |
| GraphRebuild.AllRecords | backend/app/services/graph_service.py:153-156 | the records of all stored topics, each filed under its own id |
| GraphRebuild.StoredRecordsIds | backend/app/services/graph_service.py:135 | the project's records are exactly those of its stored topic_ids |
| GraphRebuild.Rebuild | backend/app/services/graph_service.py:138-162 | a rebuilt graph is the rule graph of its records' ids, and it is closed |
| Ingestion.IngestPrerequisite | backend/app/services/graph_service.py:71-107 | one prerequisite label is handled as the fold's step says; the new topic's prerequisites stay free of duplicates |
| Ingestion.IngestPlaceholder | backend/app/services/graph_service.py:86-107 | an unresolved prerequisite is saved as its placeholder, attached to the project and added to the local copy |
| Ingestion.IngestMatch | backend/app/services/graph_service.py:36-58 | a matched proposal updates store and local copy as the fold's match step says |
| Ingestion.IngestNew | backend/app/services/graph_service.py:59-119 | an unmatched proposal creates its topic as the fold's new-topic step says |
| Ingestion.IngestPrerequisites | backend/app/services/graph_service.py:71-107 | the prerequisite loop runs the fold's prerequisite steps in order |
| Ingestion.IngestProposal | backend/app/services/graph_service.py:33-119 | one proposal is handled as the fold's step says |
| Ingestion.ProcessTopicsFromGemini | backend/app/services/graph_service.py:8-124 | the store ends as the batch fold says; the result holds each resolved topic's final local record, in order; the graphs are rebuilt by the rule |
| DiffAnalyzer.FilterDiff | backend/code_analyzer/diff_analyzer.py:92-136 | the filter loop returns the kept lines joined by newlines |
| DiffAnalyzer.KeptAt | backend/code_analyzer/diff_analyzer.py:106-134 | the kept lines are an order-preserving subsequence of the input lines |
| DiffAnalyzer.FilterKeptClean | backend/code_analyzer/diff_analyzer.py:108-132 | no kept line holds a binary marker or an excluded path pattern |
| DiffAnalyzer.SkipUntilHeader | backend/code_analyzer/diff_analyzer.py:109-131 | a skip started by a binary marker or an excluded pattern drops every line until the next `diff --git` line |
| DiffAnalyzer.CleanRun | backend/code_analyzer/diff_analyzer.py:106-134 | input with no marker and no excluded pattern is kept whole |
| DiffAnalyzer.FilterIdempotent | backend/code_analyzer/diff_analyzer.py:92-136 | filtering a filtered diff changes nothing |
| DiffAnalyzer.FindByTitle | backend/code_analyzer/diff_analyzer.py:150 | the first topic with this title in this project, or None when there is none |
| DiffAnalyzer.TopicTable.constructor | backend/code_analyzer/diff_analyzer.py:150 | the table holds the given rows |
| DiffAnalyzer.TopicTable.Create | backend/code_analyzer/diff_analyzer.py:175 | a created topic is appended and gets the next id |
| DiffAnalyzer.TopicTable.Update | backend/code_analyzer/diff_analyzer.py:185 | saving a topic overwrites its row only |
| DiffAnalyzer.ResolveAll | backend/code_analyzer/diff_analyzer.py:163-178 | resolving prerequisite names only appends rows |
| DiffAnalyzer.ResolvePrerequisites | backend/code_analyzer/diff_analyzer.py:163-178 | the resolution loop ends as the resolution function says |
| DiffAnalyzer.SaveTopic | backend/code_analyzer/diff_analyzer.py:138-226 | the table and the id end as the save function says |
| DiffAnalyzer.FindByTitleAppend | backend/code_analyzer/diff_analyzer.py:164 | rows appended later do not change a title that is already found |
| DiffAnalyzer.FindByTitleCreated | backend/code_analyzer/diff_analyzer.py:175 | a created prerequisite is found afterwards under its title |
| DiffAnalyzer.ResolveOneFinds | backend/code_analyzer/diff_analyzer.py:164-178 | each name resolves to one id, the first topic of that title in the project |
| DiffAnalyzer.ResolveAllAppends | backend/code_analyzer/diff_analyzer.py:167-175 | one id per name; every appended row is a `to_learn` topic with an empty description in this project |
| DiffAnalyzer.ResolveAllFinds | backend/code_analyzer/diff_analyzer.py:163-178 | each resolved id is the first topic of that title in the project in the final table |
| DiffAnalyzer.SaveExisting | backend/code_analyzer/diff_analyzer.py:150-185 | an existing topic takes the new description only when its own is empty and the new one is not; given prerequisites replace its list, by title within the project; every other row is unchanged, and the only rows added are empty `to_learn` prerequisites of the project |
| DiffAnalyzer.SaveNew | backend/code_analyzer/diff_analyzer.py:187-224 | a new topic is appended as `to_learn` with the given title and description, and its prerequisites are resolved by title; the earlier rows are unchanged, and every row after it is an empty `to_learn` prerequisite of the project |
| GeminiAnalyzer.FirstIndex | backend/code_analyzer/gemini_analyzer.py:154 | the position of the first `:` |
| GeminiAnalyzer.ParseGeminiResponse | backend/code_analyzer/gemini_analyzer.py:127-191 | the parsing loop returns the topics the line-by-line function gives |
| GeminiAnalyzer.ReadLines | backend/code_analyzer/gemini_analyzer.py:142-185 | the loop over the lines leaves the finished topics and the current one that the line-by-line function gives |
| GeminiAnalyzer.ReadLine | backend/code_analyzer/gemini_analyzer.py:143-185 | one stripped line moves the parse state exactly as one step of the line-by-line function |
| GeminiAnalyzer.ReadField | backend/code_analyzer/gemini_analyzer.py:163-185 | a line inside a topic sets the field its label names, or continues one, as the field step says |
| GeminiAnalyzer.StepStartsTitle | backend/code_analyzer/gemini_analyzer.py:148-160 | a title line finishes the current topic and starts one titled with the line's value |
| GeminiAnalyzer.TitlesAt | backend/code_analyzer/gemini_analyzer.py:148-151 | the titles of a topic list are its topics' titles, in order |
| GeminiAnalyzer.StepKeepsTitles | backend/code_analyzer/gemini_analyzer.py:162-185 | a line that is not a title line adds no topic and does not start one |
| GeminiAnalyzer.RunTitles | backend/code_analyzer/gemini_analyzer.py:148-189 | one topic per title line, in order, with that line's title |
| GeminiAnalyzer.ParsedTitles | backend/code_analyzer/gemini_analyzer.py:141-191 | the response yields exactly one topic per stripped `Title:` or `- Title:` line, in order |
| GeminiAnalyzer.LeadingLinesIgnored | backend/code_analyzer/gemini_analyzer.py:163-180 | lines before the first title line change nothing |
| GeminiAnalyzer.NoTitleNoTopic | backend/code_analyzer/gemini_analyzer.py:163-189 | a response without a title line yields no topic |
| GeminiAnalyzer.BlankLinesIgnored | backend/code_analyzer/gemini_analyzer.py:143-145 | removing blank lines changes nothing |
| GeminiAnalyzer.LabelValue | backend/code_analyzer/gemini_analyzer.py:154-176 | a field's value is the text after its label's colon, stripped |
| GeminiAnalyzer.PrerequisiteListProperties | backend/code_analyzer/gemini_analyzer.py:168-172 | an empty value or "none" in any case gives no list; otherwise one stripped item per comma-separated part, none holding a comma |
| GeminiAnalyzer.TitleOnly | backend/code_analyzer/gemini_analyzer.py:155-160 | a new topic has its title, description "", prerequisites [] and code references "" |
| GeminiAnalyzer.ContinuationLine | backend/code_analyzer/gemini_analyzer.py:180-185 | a continuation goes to the description while only that is set, otherwise to non-empty code references, otherwise nowhere |
| GitUtils.LastFrom | backend/code_tracker/utils/git_utils.py:198 | the last position, at or before the bound, where the pattern starts |
| GitUtils.HeaderFile | backend/code_tracker/utils/git_utils.py:198-213 | a line is a header exactly when it starts with `diff --git a/` and has a later ` b/`; the file is the text after the last ` b/`, the greedy first group |
| GitUtils.ParseDiffSummary | backend/code_tracker/utils/git_utils.py:179-235 | the counting loop returns the summary the line-by-line function gives |
| GitUtils.CountLines | backend/code_tracker/utils/git_utils.py:208-228 | the counting loop over the lines ends with the tally the line-by-line function gives |
| GitUtils.SumsBump | backend/code_tracker/utils/git_utils.py:224-228 | counting a line in the last file adds one to that file's kind only |
| GitUtils.TallyFiles | backend/code_tracker/utils/git_utils.py:210-218 | files_changed equals the number of summaries, one per header line, in order, naming its `b` path |
| GitUtils.TallyStepCounts | backend/code_tracker/utils/git_utils.py:221-228 | a line adds one to the insertions exactly when it starts with `+` but not `+++`, and one to the deletions exactly when it starts with `-` but not `---` |
| GitUtils.TallyCounts | backend/code_tracker/utils/git_utils.py:221-228 | the totals count exactly the insertion and deletion lines, and the per-file counts sum to at most the totals |
| GitUtils.TallyBeforeHeaders | backend/code_tracker/utils/git_utils.py:223-228 | lines before the first header count toward the totals only |
| GitUtils.TallySegment | backend/code_tracker/utils/git_utils.py:210-228 | a header followed by header-free lines adds one file whose counts are that segment's insertion and deletion lines (zero when the header's path is empty), and adds them to the totals |
| GitUtils.FileCountsAttributed | backend/code_tracker/utils/git_utils.py:210-228 | the summary of the n-th header holds exactly the insertions and deletions between that header and the next one |
| GitUtils.SummaryProperties | backend/code_tracker/utils/git_utils.py:189-235 | an empty diff gives zeros and no summaries; any other agrees with the independent counts, and each file's counts are those of the lines up to the next header |
| LlmUtils.HasRequired | backend/code_tracker/utils/llm_utils.py:149-153 | a dictionary with every required field has a topic_id |
| LlmUtils.TopicDict.constructor | backend/code_tracker/utils/llm_utils.py:139 | the dictionary holds the given fields |
| LlmUtils.ValidateTopic | backend/code_tracker/utils/llm_utils.py:139-168 | None, with the dictionary untouched, exactly when a required field is missing; otherwise the same dictionary, repaired in place |
| LlmUtils.ReplaceSpaceAt | backend/code_tracker/utils/llm_utils.py:160 | replacing spaces by `-` keeps the length and changes only the spaces |
| LlmUtils.FixTopicIdShape | backend/code_tracker/utils/llm_utils.py:160-161 | the repaired id keeps its length, is lower case and has no space |
| LlmUtils.FixTopicIdValid | backend/code_tracker/utils/llm_utils.py:157-161 | the repaired id is valid exactly when the original held only letters, digits, spaces and hyphens |
| LlmUtils.FixTopicIdFixed | backend/code_tracker/utils/llm_utils.py:156-161 | a valid id is left as it is, and the repair is idempotent |
| LlmUtils.RepairedProperties | backend/code_tracker/utils/llm_utils.py:156-166 | repair keeps the keys and every other field; non-list prerequisites become [] and a list is kept; a valid id is kept and any other is repaired; validating twice is validating once |
| Scheduler.LastIndex | backend/code_tracker/scheduler.py:130 | the last position of the character, or -1 |
| Scheduler.Ext | backend/code_tracker/scheduler.py:130 | the extension is empty or a final dot-suffix of the name, holding no other dot and no slash |
| Scheduler.InListIff | backend/code_tracker/scheduler.py:131 | the list test is membership |
| Scheduler.LastIndexSamePlaces | backend/code_tracker/scheduler.py:130 | lower-casing does not move the last dot |
| Scheduler.ExtLower | backend/code_tracker/scheduler.py:130 | the extension of the lower-cased name is the lower-cased extension |
| Scheduler.IsCodeFileByExtension | backend/code_tracker/scheduler.py:122-131 | a file is tracked exactly when its lower-cased extension is in the fixed list, whatever the case of the name |
| Scheduler.VisitsSnoc | backend/code_tracker/scheduler.py:76-86 | the walk visits each tracked file once, in listing order |
| Scheduler.ScanRunSnoc | backend/code_tracker/scheduler.py:76-104 | a scan handles the visited files one after another |
| Scheduler.ChangeTracker.constructor | backend/code_tracker/scheduler.py:19-29 | a tracker starts with no file metadata |
| Scheduler.ChangeTracker.ScanForChanges | backend/code_tracker/scheduler.py:49-110 | the metadata and the reported changes end as the scan function says |
| Scheduler.VisitsAre | backend/code_tracker/scheduler.py:61-86 | the visited files are exactly the code files the walk reaches |
| Scheduler.PrunedIgnored | backend/code_tracker/scheduler.py:63-74 | a file under `.git`, `node_modules`, `venv` or `env` is never visited |
| Scheduler.ScanMetaKeys | backend/code_tracker/scheduler.py:101-104 | after a scan the table holds the old paths and the visited ones; paths not visited keep their metadata |
| Scheduler.ScanMeta | backend/code_tracker/scheduler.py:101-104 | after a scan each visited file's entry holds its current hash and time |
| Scheduler.ScanChanges | backend/code_tracker/scheduler.py:89-98 | a file is reported exactly when an earlier scan recorded it and its hash now differs; a first sighting is never reported |
| Scheduler.ExpectedNone | backend/code_tracker/scheduler.py:89-98 | with no recorded file changed, nothing is reported |
| Scheduler.RescanQuiet | backend/code_tracker/scheduler.py:159-164 | after a baseline scan, scanning the same files again reports nothing |
| Scheduler.ChangedPaths | backend/code_tracker/scheduler.py:207-237 | the results list one entry per changed file, in order |
| Scheduler.CollectResults | backend/code_tracker/scheduler.py:206-237 | the results loop appends one entry per changed file, in order, which is what ChangedPaths gives |
| Scheduler.DueExactly | backend/code_tracker/scheduler.py:284-290 | the due projects are exactly the registered ones whose elapsed time strictly exceeds the interval, each once |
| Scheduler.ScheduledScanner.constructor | backend/code_tracker/scheduler.py:138-141 | a scanner starts with no trackers and no scan times |
| Scheduler.ScheduledScanner.RegisterProject | backend/code_tracker/scheduler.py:143-169 | fails and changes nothing when the path is no directory; otherwise a fresh tracker holds a baseline scan and the scan time is now |
| Scheduler.ScheduledScanner.ScanProject | backend/code_tracker/scheduler.py:171-251 | an unregistered project gives the error and no change; otherwise the scan time is set to now, and the tracker's table and the result follow the scan |
| Scheduler.ScheduledScanner.DueNow | backend/code_tracker/scheduler.py:284-290 | the due list is the due projects in registration order |
| Scheduler.ScheduledScanner.ScanEach | backend/code_tracker/scheduler.py:294-296 | each listed project is scanned once and gets a result, and its scan time is the clock reading of its own scan (scheduler.py:191); the others keep their tables and times |
| Scheduler.ScheduledScanner.ScanDueProjects | backend/code_tracker/scheduler.py:272-302 | exactly the projects due at the selection time are scanned; each gets a result and, as its new scan time, the clock reading of its own scan; the others are untouched |
| Track.Patterns | cli/brainvibe/commands/track.py:61-105 | the patterns always start with the 18 defaults in their order, and a missing file yields the defaults alone |
| Track.LinePattern | cli/brainvibe/commands/track.py:95-100 | a line is kept exactly when its stripped form is non-empty and not a comment, and a kept line yields its pattern (ToPattern) |
| Track.LoadIgnorePatterns | cli/brainvibe/commands/track.py:93-100 | the reading loop appends each usable line's pattern after the defaults |
| Track.ConvertedAppend | cli/brainvibe/commands/track.py:94-100 | lines contribute independently, in file order |
| Track.ConvertedLine | cli/brainvibe/commands/track.py:95-100 | a non-empty, non-comment stripped line gives exactly its pattern; any other line gives nothing |
| Track.ConvertedShape | cli/brainvibe/commands/track.py:97-100 | one pattern per usable line, each starting and ending with `.*` |
| Track.GlobPerChar | cli/brainvibe/commands/track.py:99 | the conversion translates each character on its own: `.` becomes `\.`, `*` becomes `.*`, and the dot a star introduces is not escaped |
| Track.OrderMatters | cli/brainvibe/commands/track.py:99 | the opposite order of the two replacements would turn `*` into `\.*` |

## Left out

- Persistence: SqliteDict, JSON (de)serialisation and networkx are abstracted. A keyed collection is a map, plus a key sequence for the topics' iteration order. A graph is a node set, node attributes and an edge set. Writing an existing key keeps its place in the order, as a dict does. The row order SqliteDict's REPLACE may produce is not modelled.
- Projects are iterated as a map, so no project order is modelled. Nothing in the core depends on that order.
- Strings use an ASCII character model for `lower`, `upper`, `isalnum`, `isdigit`, `islower`, `title` and `strip`. ASCII whitespace is what `str.isspace` accepts: space, `\t` to `\r`, and `\x1c` to `\x1f`. Unicode case mapping and Unicode whitespace are not modelled.
- Proposals.Skipped: `isalnum` is ASCII here, so a label made only of non-ASCII letters (such as "データ") normalises to "" and is skipped by the corrected rule. In Python those letters are alphanumeric, and the label creates or matches a topic.
- TopicStore.Store.GetMasterBrainData: returns the graph; the conversion to JSON-ready node and edge lists is not modelled.
- TopicStore.Store.GetProjectGraphData: the same; it returns the graph itself.
- `get_all_projects`, `get_all_topics` and `save_project` are the maps themselves and their update; they have no member of their own.
- Ingestion.ProcessTopicsFromGemini: requires a stored project. Its caller rejects unknown projects first; without one, `add_topic_to_project` would return False and leave the project unchanged.
- Ingestion.ProcessTopicsFromGemini: the source's result entries are the same dict objects as the local copy, so later changes in the batch show through. The model returns each topic's local record as it stands at the end of the batch, which is what those shared objects hold.
- Proposals: a proposal is a record. A missing `topic_id` is "", a missing display name or description is None, and missing prerequisites are []. The fields are taken to be strings and lists of strings, as the LLM's JSON gives them.
- Ingestion follows the corrected skip rule `Proposals.Skipped` (see Findings), for proposals and prerequisite labels alike. The guard as written is `Proposals.SkippedAsWritten`.
- DiffAnalyzer: the Django `Topic` table is a sequence of rows; a row's position is its id. The timestamps `created_at` and `updated_at` are not modelled.
- DiffAnalyzer.TopicTable.Update: models `save()` of an existing row as overwriting it.
- DiffAnalyzer.FindByTitle: takes `get_by_title_and_project(...)[0]` (diff_analyzer.py:150, 164, 206) to be the matching row with the lowest id. The ORM query has no explicit ordering, so this relies on the database returning rows in id order.
- LlmUtils.ValidateTopic: requires a string `topic_id` when one is present. The source's other ids behave in three ways, none of which is modelled:
  - An int or None raises TypeError at llm_utils.py:157.
  - A list, dict or other iterable passes the format test there when each element is a string that is lower-case, a digit string or "-", as an empty one trivially does. The id is then kept as it is.
  - Any other iterable raises AttributeError: at :157 for a non-string element, or at :160 when `.lower()` is called on it.
- Scheduler: `os.walk`, MD5 hashing and `getmtime` are inputs. A scan receives the walked files, each with its directory chain, hash and modification time. An unreadable file's hash is "", as the source returns.
- Scheduler: `datetime.now()` and the scan times are integer seconds. The interval is in hours, as `interval_hours` is, and `IsDue` compares the elapsed time with `intervalHours * 3600`. Sub-second precision of `timedelta` is not modelled. `scan_due_projects` reads the clock once to choose the due projects (`now`), and each `scan_project` reads it again for its own scan time (scheduler.py:191). The model gives the second reading as a per-project `clock` parameter, with no assumed relation to `now`.
- Scheduler: `os.path.isdir` is a boolean parameter.
- Scheduler.ScheduledScanner.ScanProject: per-file analysis (`compute_diff` and `analyze_code_change`) is foreign code. A result lists the changed paths instead of analysis results. An unreadable changed file (scheduler.py:212-217) is still listed, since reading is not modelled. The generic exception path is not modelled.
- Scheduler: `scan_all_projects` is not modelled; it is `ScanEach` over every registered project.
- Track: the ignore file is an input, None when missing and its lines otherwise. Choosing its path, the read-error path and `print` are left out.
- Track: `should_ignore_file` uses regular-expression matching (`re.match`) and is not modelled.
- Logging is not modelled anywhere.
- LLM calls, git and subprocess I/O, HTTP layers, the Django ORM code and the frontend are outside this model.

## Findings

| source | as written | input that shows it | evidently intended | confidence | as-written member | corrected member |
|---|---|---|---|---|---|---|
| backend/app/services/graph_service.py:27-29 | a proposal, or a prerequisite label (lines 72-73), is skipped only when its raw id is empty | topic_id "!!!" normalises to "", and "" is a substring of every stored id and display, so it resolves to the first stored topic, which is then attached to the project | skip a label whose normalised id is empty | high, not executed | Proposals.SkippedAsWrittenAdmitsEmptyId | Proposals.Labels |
