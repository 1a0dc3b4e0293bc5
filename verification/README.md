# Brainstack core, verified in Dafny

A Dafny 4.11 model of the offset, selection and derived-index logic of Brainstack, with proofs of what that
logic promises. `dafny verify dfyconfig.toml` checks the whole project.

Six parts of the repository are modelled, one module for each core file or for a stage of it:

- **Offline documents** (`EvidenceSpans`, `ChunkRanges`, `DocumentSections`, `DocumentPipeline`, `Claims`).
  A document is cut at heading lines into sections, each section into bounded chunks with absolute offsets;
  evidence snippets are found verbatim or through a whitespace-normalising index map; claims are bound to the
  one chunk that holds their evidence and compared for conflicts.
- **Corpus sectioning** (`Corpus`, `CorpusSections`). A greedy word packer feeds a second packer that merges
  pieces under one heading with a running length.
- **Associative expansion** (`AssociativeExpansion`). A breadth-first search over an opaque graph search, with
  a seen-set, a frontier and three caps.
- **Budgets** (`BehaviorPolicy`, `BehaviorPolicyCompiler`, `BudgetProjection`). Rules are rendered under a
  character budget and taken off again to make room for a line that counts what is missing; memory cards are
  selected under a token budget.
- **Derived indexes** (`GraphPublish`, `GraphBackend`, `SemanticIndex`, `GraphProjection`, `Consolidation`).
  Publishing replaces one key's rows, under failures, rollback and repair; a graph read model and a source
  fingerprint are rebuilt from the rows they stand for.
- **Receipts and provenance** (`WriteReceipts`, `CapturePipeline`, `HindsightAdapter`, `HindsightBridge`).
  "Saved" may be claimed only with receipts; donor proposals survive only with verified sources.

`Text`, `Sequences`, `Ordering` and `Results` hold what they share: Python's whitespace, `split`, `join`,
`strip`, `find`, `rfind` and `splitlines`, the string order, stable sorting, and option and result types.

Loops of the source are methods with loops. Each is proved equal to a recursive function of its inputs, or
against a predicate of them, and the promises are lemmas about that function or predicate; those named `...Exactly`
say without it which elements, in which order, or under which conditions. The two storage
backends are classes whose calls may fail; every failure is a parameter, so the theorems hold for all of them.

Things the source calls but does not define here are parameters: the heading pattern of `corpus.py`, the
tokenizer and the graph search, the event validator, the projection semantics, `admit_claim`, `str.casefold`
and `str.lower`, and all digests. A hypothesis on one of them (a digest is injective, lower-casing is
idempotent) is written in the lemma that needs it.

## Results that qualify what the code promises

- A piece of `_split_chunk_ranges` ends after it starts if and only if `max_chunk_chars` is at least 1, or it is
  negative and a full stop found from the end of the text is far enough (`ChunkRanges.SplitAdvances`). With a limit
  below 1 and no full stop from the end of the range on the loop never ends (`ChunkRanges.SplitNeverEnds`), and with
  one a piece can reach past its range (`ChunkRanges.SplitOvershoots`).
- The errors "could not derive any sections" and "any chunks" of the document pilot never arise: the only
  failures are blank content, an incomplete candidate, and evidence that no chunk holds
  (`Claims.BuildOfflineDocumentPilot`).
- The second packer of `split_corpus_sections` counts one character too many once it has closed a section. Pieces that
  fit are kept apart if and only if they fit with nothing to spare and the pending section is not the first
  (`CorpusSections.KeptApartExactly`); the sections differ from those of a packer by true length if and only if that
  happens (`CorpusSections.SectionsByLength`), and three paragraphs show it at the limit of 240
  (`CorpusSections.OvercountAt240`). The length bound still holds.
- The rendered policy keeps its budget if and only if the budget is at least 3, or there is nothing to show and
  it is not negative (`BehaviorPolicy.BudgetKept`).
- The bare dots are rendered if and only if rules are left over and the line that counts all of them does not fit on
  its own (`BehaviorPolicy.BareDotsExactly`), so never with the room of the pinned view or more
  (`BehaviorPolicy.NeverBareDots`).
- `included_rule_ids` lists the rules before any line was taken off again. It equals the rules shown if and only
  if nothing had to be taken off (`BehaviorPolicy.ReportedRules`). Two rules of 291 letters, compiled with the smallest
  budget, show the difference: the first is reported as injected in a text without it
  (`BehaviorPolicyCompiler.InjectedButNotShown`).
- A compiled policy is active if and only if its label and all its bullets fit the budget together and no two rules
  share an id (`BehaviorPolicyCompiler.ActiveExactly`).
- The active cards can outweigh `max_active_tokens` although the projection does not fail closed: two events with a
  budget of one of them do (`BudgetProjection.BudgetExceeded`). A projection keeps its budget if and only if it does
  not fail closed and every critical card fits behind what was kept before it, which the critical branch does not
  check (`BudgetProjection.ProjectionWithinBudget`); with the critical cards sorted first that always holds
  (`BudgetProjection.CriticalFirstWithinBudget`).
- Publishing an entity takes away the rows of another entity if and only if the snapshot claims one of their
  keys; aliases are keyed by their text alone, so this can happen for them (`GraphPublish.OthersKept`). After any run
  an entity is shown as last published if and only if no other entity has claimed one of its keys since
  (`GraphPublish.RunShowsLatest`); a shared alias is shown for the last claimant alone
  (`GraphPublish.SharedAliasMoves`).
- A publish of the semantic index can break off between its upsert and its delete. Until the next publish of the key,
  or a repair, the key shows the half-written rows on top of the old ones; that is the published document if and only
  if they add nothing to it (`SemanticIndex.RunRefinesLatest`). Two publishes show a key with rows of both documents
  (`SemanticIndex.HalfwayShowsBoth`).
- The simulated receipts cover a plan only for scope keys that are already normalised, because the receipt
  stores them normalised and coverage compares them with the keys as given (`CapturePipeline.SavedExactly`).

## Model

| member | source | states |
|---|---|---|
| EvidenceSpans.NormalizedTextWithMap | brainstack/document_pipeline.py:51-66 | the loop over characters builds the normalised text and the index map |
| EvidenceSpans.NormalizedIsSplitJoin | brainstack/document_pipeline.py:51-66 | for every text the normalised characters are exactly `" ".join(text.split())` |
| EvidenceSpans.MapFaithful | brainstack/document_pipeline.py:51-66 | the index map is strictly increasing, in bounds, and points at the character it stands for, a space standing for any whitespace |
| EvidenceSpans.MapBack | brainstack/document_pipeline.py:205-209 | mapping a stretch of normalised text back gives a stretch of the document that normalises to it |
| EvidenceSpans.StretchShowsUp | brainstack/document_pipeline.py:201-203 | every stretch of the document with non-whitespace ends occurs in the normalised text where the map says |
| EvidenceSpans.LocateEvidenceSpan | brainstack/document_pipeline.py:193-209 | the two-stage search, verbatim first and then through the map, with both error cases |
| EvidenceSpans.LocateFaithful | brainstack/document_pipeline.py:193-209 | whatever span is returned is in bounds, non-empty, and its excerpt normalises to the normalised snippet |
| EvidenceSpans.LocateComplete | brainstack/document_pipeline.py:195-205 | the search fails on a blank snippet, and otherwise exactly when no stretch of the document normalises to the snippet |
| EvidenceSpans.LocateVerbatim | brainstack/document_pipeline.py:196-198 | a snippet that occurs verbatim is located at its first verbatim occurrence |
| EvidenceSpans.LocateTrimmed | brainstack/document_pipeline.py:199-209 | without a verbatim occurrence the span starts and ends on characters that are not whitespace |
| EvidenceSpans.LocateLeftmost | brainstack/document_pipeline.py:203-209 | without a verbatim occurrence the span starts at or before the first non-whitespace character of every matching stretch |
| ChunkRanges.TrimSpan | brainstack/document_pipeline.py:41-48 | the two loops trim a span and return the text between its new ends |
| ChunkRanges.TrimExact | brainstack/document_pipeline.py:41-48 | trimming drops only whitespace and stops on non-whitespace at both ends |
| ChunkRanges.ParagraphRanges | brainstack/document_pipeline.py:125-137 | the scan for blank lines yields the paragraph ranges |
| ChunkRanges.ParagraphsTile | brainstack/document_pipeline.py:125-137 | paragraph ranges are ordered and leave out only whitespace |
| ChunkRanges.ParagraphsExactly | brainstack/document_pipeline.py:125-137 | each paragraph runs from the first non-whitespace character after the one before to the next blank line or the end, and after the last there is only whitespace |
| ChunkRanges.MergeParagraphs | brainstack/document_pipeline.py:142-151 | consecutive paragraphs are merged from a start to an end while they fit, and kept apart only where the next one would not |
| ChunkRanges.MergeGreedy | brainstack/document_pipeline.py:142-151 | every merged range runs from a paragraph's start to a paragraph's end, within the limit unless it is one paragraph; with the next paragraph it would be longer than the limit |
| ChunkRanges.GreedyUnique | brainstack/document_pipeline.py:142-151 | no other ranges have that property |
| ChunkRanges.MergeTiles | brainstack/document_pipeline.py:142-151 | merging keeps the ranges ordered and loses no position of a paragraph |
| ChunkRanges.SplitAdvances | brainstack/document_pipeline.py:158-166 | for every limit, negative ones included, a piece ends after it starts exactly when the limit is at least 1 or a negative one meets a far full stop |
| ChunkRanges.SplitNeverEnds | brainstack/document_pipeline.py:158-166 | with a limit below 1 and no full stop from the end of the range on, no number of pieces gets there |
| ChunkRanges.SplitOvershoots | brainstack/document_pipeline.py:158-166 | with a negative limit and a late full stop behind the range the first piece reaches past the range |
| ChunkRanges.SplitPieces | brainstack/document_pipeline.py:158-166 | the loop cuts a long range at the limit or after a late full stop |
| ChunkRanges.SplitEndExactly | brainstack/document_pipeline.py:158-166 | a piece ends at the end of its range if that is within the limit, else behind the last full stop within the limit if it is more than 80 characters on, else at the limit |
| ChunkRanges.SplitLongTiles | brainstack/document_pipeline.py:158-166 | the pieces cover the range exactly once, in order, each within the limit |
| ChunkRanges.RangesOfTile | brainstack/document_pipeline.py:124-167 | the chunk ranges of a text are ordered, disjoint, at most the limit long, and miss no non-whitespace position |
| ChunkRanges.SplitChunkRanges | brainstack/document_pipeline.py:124-167 | the whole of the range splitter, by its three loops |
| ChunkRanges.RangesExactly | brainstack/document_pipeline.py:124-167 | the ranges of a text are its paragraphs merged greedily, and what is then too long is cut where the rule says |
| ChunkRanges.OneRange | brainstack/document_pipeline.py:139-156 | a text whose last paragraph ends within the limit of where the first one starts is one range |
| ChunkRanges.InExactlyOne | brainstack/document_pipeline.py:124-190 | in an ordered cover every needed position lies in one range and in no other |
| DocumentSections.SplitSections | brainstack/document_pipeline.py:69-121 | the loop over lines with its flushes yields the document's sections, numbered from 1 |
| DocumentSections.HeadingExactly | brainstack/document_pipeline.py:95-100 | a line is a heading exactly when, stripped, it starts with one or more hashes and something else follows them, which is its title |
| DocumentSections.SectionSpansTile | brainstack/document_pipeline.py:94-105 | from any open section on, the spans flushed cover every non-whitespace character outside heading lines exactly once |
| DocumentSections.SectionHeadings | brainstack/document_pipeline.py:94-105 | every position of a section is on no heading line and under the heading the section carries |
| DocumentSections.RecordExactly | brainstack/document_pipeline.py:77-121 | a section is numbered by place, is the text between its offsets, and carries the heading in force at each of its positions, "Document" before the first and for a document of headings alone |
| DocumentSections.SectionsTile | brainstack/document_pipeline.py:69-121 | the sections of a document cover its body text exactly, and there are none exactly for blank content |
| DocumentPipeline.BuildChunks | brainstack/document_pipeline.py:170-190 | the nested loops yield the chunks of all sections, numbered by place |
| DocumentPipeline.SectionChunksTile | brainstack/document_pipeline.py:173-189 | the chunks of a section are faithful, bounded, ordered, and keep all its text |
| DocumentPipeline.AllChunksTile | brainstack/document_pipeline.py:170-190 | so are the chunks of all sections together |
| DocumentPipeline.ChunksTileDocument | brainstack/document_pipeline.py:69-190 | every body character of the document is in exactly one chunk; each chunk is the text between its absolute offsets, within the limit, numbered, and inside the section it names |
| Claims.NormalizeCandidates | brainstack/document_pipeline.py:219-238 | each mapping stripped and its type defaulted; succeeds exactly when every candidate has its three parts and a snippet, and otherwise reports which the first incomplete one lacks |
| Claims.FindChunkForSpan | brainstack/document_pipeline.py:212-216 | returns a chunk that holds the span, or says rightly that there is none |
| Claims.HeldByOne | brainstack/document_pipeline.py:212-216 | no two chunks hold the same non-empty span |
| Claims.BindClaims | brainstack/document_pipeline.py:263-289 | all claims are bound exactly when every snippet is located inside one chunk, each to its located span; otherwise the first candidate that cannot be bound decides the error |
| Claims.ClaimInOneChunk | brainstack/document_pipeline.py:267-276 | a claim's evidence lies in the chunk it names and in no other, and its excerpt is that chunk's text at the relative offset |
| Claims.DocumentNamesDistinct | brainstack/document_pipeline.py:181 | the generated identifiers of a document are distinct for distinct numbers |
| Claims.ObjectValues | brainstack/document_pipeline.py:296-298 | the set of object values has more than one element exactly when two claims of the pair disagree |
| Claims.GroupClaims | brainstack/document_pipeline.py:292-294 | one group per subject and predicate, in the order of their first claims, holding all claims of the pair in order |
| Claims.OfPairExactly | brainstack/document_pipeline.py:292-294 | the claims of a pair are exactly those with its subject and predicate, in order |
| Claims.FindConflicts | brainstack/document_pipeline.py:291-308 | conflicts are exactly the pairs whose claims disagree, each once, in the order of their first claims, listing all claim ids of the pair in order |
| Claims.BuildOfflineDocumentPilot | brainstack/document_pipeline.py:241-327 | when the build succeeds, that its sections, chunks, evidence, claims and conflicts are then the exact ones, and which error it fails with otherwise |
| Corpus.SplitLongText | brainstack/corpus.py:36-54 | the packing loop yields the greedy split |
| Corpus.PackIsPacking | brainstack/corpus.py:36-54 | the greedy groups keep the words in order, and a group exceeds the limit only as a single word |
| Corpus.PackOptimal | brainstack/corpus.py:36-54 | no order-preserving split under the same rule uses fewer groups, from any state of the loop |
| Corpus.GreedyPackingOptimal | brainstack/corpus.py:36-54 | the chunks hold exactly the words of the text, each fits or is one word, and no other split has fewer |
| Corpus.ScanBlocks | brainstack/corpus.py:69-80 | the loop over lines with its paragraph flushes yields the blocks and the last heading |
| Corpus.ScanConserves | brainstack/corpus.py:63-80 | the words of the blocks, each under its heading, are those of the lines that are not headings |
| Corpus.ScanExactly | brainstack/corpus.py:63-80 | the blocks are the longest stretches of lines that are neither blank nor headings, each the normalised join of its lines under the heading in force, and the last heading is the one in force at the end |
| Corpus.SplitLinesExactly | brainstack/corpus.py:69 | the lines are the text in order, each without its line break |
| CorpusSections.PackPieces | brainstack/corpus.py:87-118 | the second packing loop with its flush yields the merged sections |
| CorpusSections.PendingStep | brainstack/corpus.py:107-116 | the running length is the length of the pending text, and one more once a section has been closed |
| CorpusSections.ClosesExactly | brainstack/corpus.py:110-116 | a pending section is closed exactly when the heading changes or its text with the next piece, one more for a later section, exceeds the limit |
| CorpusSections.KeptApartExactly | brainstack/corpus.py:110-116 | pieces that fit are kept apart exactly when they fit with nothing to spare and the section is not the first |
| CorpusSections.MergedByLength | brainstack/corpus.py:87-118 | the packer is the packer by true length whose limit is one less for every section but the first |
| CorpusSections.OvercountMatters | brainstack/corpus.py:87-118 | from any state the over-count changes the sections exactly when some later section meets a piece that fits with nothing to spare |
| CorpusSections.MergedConserves | brainstack/corpus.py:87-118 | merging moves no word to another heading, loses none, and keeps every section within the limit or a single word |
| CorpusSections.SectionsByLength | brainstack/corpus.py:57-122 | the sections of a document are those of a packer by true length up to the limit exactly when that never happens |
| CorpusSections.BlocksExactly | brainstack/corpus.py:57-85 | the blocks of a document start under its title, or "Document"; a document with no paragraph is all its words under its last heading, and none if it is blank |
| CorpusSections.EstimateExactly | brainstack/corpus.py:32-33 | the estimate is one token for each four characters, begun ones included, and at least one |
| CorpusSections.OvercountSplits | brainstack/corpus.py:57-122 | a document of three paragraphs whose last two would fit one section and are kept apart |
| CorpusSections.OvercountAt240 | brainstack/corpus.py:57-122 | such a document for the smallest limit, 240 |
| CorpusSections.SectionsConserve | brainstack/corpus.py:57-122 | the sections of a document hold its words under their headings, in order, each at most max_chars or at most 240 characters long, or one word |
| CorpusSections.SplitCorpusSections | brainstack/corpus.py:57-122 | the whole of the splitter; sections are indexed 0 to n-1 and carry their token estimate |
| AssociativeExpansion.KeyInjective | brainstack/associative_expansion.py:24-25 | evidence keys tell rows apart exactly by type and id |
| AssociativeExpansion.SeedsExactly | brainstack/associative_expansion.py:118-119 | the seeds are the first max_seed_count rows that have a type, in order, and none for a negative count |
| AssociativeExpansion.JudgeKeys | brainstack/associative_expansion.py:198-248 | judging a row keeps the seen-set the disjoint union of seed, included and rejected keys, with no key included twice |
| AssociativeExpansion.AnchorsExactly | brainstack/associative_expansion.py:66-75 | the anchors of a row are its normalised subject and object of at least two characters, the subject first, each once |
| AssociativeExpansion.JudgeHits | brainstack/associative_expansion.py:211-248 | an included row meets its query-overlap threshold and is in the answer to a hop of the run, made on an anchor of a row one level up |
| AssociativeExpansion.JudgeRejections | brainstack/associative_expansion.py:200-236 | a suppressed row has the reason it is given |
| AssociativeExpansion.JudgeDeals | brainstack/associative_expansion.py:198-248 | rows are dealt out in order: each goes to the hits or to the rejections, and neither holds anything else |
| AssociativeExpansion.JudgeRows | brainstack/associative_expansion.py:198-250 | the rows of one search are all included or suppressed unless the candidate cap stops them |
| AssociativeExpansion.ExpandAnchor | brainstack/associative_expansion.py:177-250 | one search keeps all invariants, adds one hop with the size of its answer, and extends only its own level |
| AssociativeExpansion.ExpandParent | brainstack/associative_expansion.py:173-250 | the anchors of a row are searched in order, and all of them if no cap is reached |
| AssociativeExpansion.ExpandLevel | brainstack/associative_expansion.py:171-253 | a level of the search keeps all invariants, searches its rows in order, and returns the next frontier |
| AssociativeExpansion.Expand | brainstack/associative_expansion.py:167-253 | the whole search respects its caps, files what its hops were answered and nothing else, searches level by level, row by row and anchor by anchor, and stops only at a cap or with every anchor above the depth limit searched |
| AssociativeExpansion.CandidatesConserved | brainstack/associative_expansion.py:183-250 | the hop counts add up to what was included and suppressed, or to at least that when the candidate cap was reached |
| AssociativeExpansion.ParentChain | brainstack/associative_expansion.py:171-247 | every included row is reached from a seed by as many hops of the run as its depth, each made on an anchor of the row before it and answered with the row after it |
| AssociativeExpansion.ReportCaps | brainstack/associative_expansion.py:168-191 | included rows, searches and depths are within the caller's bounds, negative ones read as 0, and every search asks for twice the candidate bound, at least 8 |
| AssociativeExpansion.ReportHits | brainstack/associative_expansion.py:78-93 | an included row shares a query term, two where the anchor is the object of a row that is no relation, and scores its shared terms, 0.18 for authority, 0.22 for being current, less 0.2 for each level below the first; a suppressed one has its reason |
| AssociativeExpansion.ReportStops | brainstack/associative_expansion.py:171-253 | every anchor above the depth bound has been searched unless the search or the candidate bound is reached |
| AssociativeExpansion.BeforeIsOrder | brainstack/associative_expansion.py:255-262 | best score, later date, greater subject is a total preorder, so the sort is one |
| AssociativeExpansion.BuildAssociativeExpansion | brainstack/associative_expansion.py:107-300 | the three early exits, and otherwise a report of a sound run within the caller's bounds: hops in breadth-first order, included rows stably sorted best first, suppressed ones truncated, all counts exact |
| BehaviorPolicy.TakeFitShape | brainstack/behavior_policy.py:223-230 | a block takes the longest prefix of its kind's rules that fits |
| BehaviorPolicy.FillShape | brainstack/behavior_policy.py:204-239 | filling stays within the budget, shows a prefix of every kind's rules and counts what it shows |
| BehaviorPolicy.FillLaidOut | brainstack/behavior_policy.py:204-239 | kind by kind, in order, the lines are a gap, the label and the longest fitting prefix of the kind's rules, up to the first kind that is cut or does not fit |
| BehaviorPolicy.ShrinkShape | brainstack/behavior_policy.py:244-254 | taking lines off ends with a line that counts all rules not shown, within the budget, or with the bare dots |
| BehaviorPolicy.ShrinkLongest | brainstack/behavior_policy.py:244-254 | no more lines are taken off than needed: any longer start, with the line that counts its missing rules, exceeds the budget |
| BehaviorPolicy.ShownLongest | brainstack/behavior_policy.py:241-254 | with rules left over, what is shown is the longest start of the filled lines that fits with that line; otherwise all of them are shown |
| BehaviorPolicy.TruncationHonest | brainstack/behavior_policy.py:179-257 | rendered text shows a prefix of every kind's rules; shown rules plus the number in the suffix are all rules, or the text is the bare dots |
| BehaviorPolicy.BudgetKept | brainstack/behavior_policy.py:242-257 | the text keeps the budget exactly when the budget is at least 3, or nothing is to be shown and it is not negative |
| BehaviorPolicy.ReportedRules | brainstack/behavior_policy.py:236-257 | the reported rule ids extend the shown ones, and equal them exactly when no line had to be taken off |
| BehaviorPolicy.BareDotsExactly | brainstack/behavior_policy.py:241-257 | the bare dots are rendered exactly when rules are left over and the line that counts all rules does not fit |
| BehaviorPolicy.NeverBareDots | brainstack/behavior_policy.py:241-257 | they are never rendered with a budget of at least 240, for any number of rules of up to 200 digits |
| BehaviorPolicyCompiler.ReportedButNotShown | brainstack/behavior_policy.py:179-257 | two rules of which the first is reported as included and not shown |
| BehaviorPolicyCompiler.InjectedButNotShown | brainstack/behavior_policy.py:337-402 | compiling these rules reports the first as injected, in a text that shows neither |
| BehaviorPolicyCompiler.NothingCutOff | brainstack/behavior_policy.py:204-242 | nothing is cut off exactly when the label and the bullets of all rules fit the budget together |
| BehaviorPolicyCompiler.RenderProjection | brainstack/behavior_policy.py:179-257 | the loops with their break conditions render the filled and shrunk lines and report ids, truncation and total |
| BehaviorPolicyCompiler.NothingToStrip | brainstack/behavior_policy.py:256 | the final strip never changes the rendered text |
| BehaviorPolicyCompiler.ItemsExactly | brainstack/behavior_policy.py:186-195 | a kind shows, in order, exactly the active clauses of that kind with a text, a kind without a label counting as custom |
| BehaviorPolicyCompiler.DashesReplaced | brainstack/behavior_policy.py:101-105 | no long dash is left in a sanitised text; each is spelt out in place, and nothing else changes |
| BehaviorPolicyCompiler.CompileBehaviorPolicy | brainstack/behavior_policy.py:337-402 | when there is a policy, its text, within the budget or 320 characters, its status, whether it was truncated, its omitted count and the coverage of every rule |
| BehaviorPolicyCompiler.ActiveExactly | brainstack/behavior_policy.py:372-402 | a policy is active exactly when its label and all its bullets fit the budget together and no two rules share an id |
| BehaviorPolicyCompiler.ActiveShowsEveryRule | brainstack/behavior_policy.py:365-402 | an active policy has the bullet of every rule in its text |
| BehaviorPolicyCompiler.ActiveTextHasRule | brainstack/behavior_policy.py:365-402 | so the sanitised text of every rule, behind a dash, occurs in the text of an active policy |
| GraphPublish.ReplaceExact | brainstack/graph_backend_kuzu.py:198-242 | after delete and merge an entity's rows are the snapshot's, and other entities lose only rows whose key is claimed |
| GraphPublish.OthersKept | brainstack/graph_backend_kuzu.py:274-312 | another entity keeps its rows exactly when the snapshot claims none of their keys |
| GraphPublish.PublishedTables | brainstack/graph_backend_kuzu.py:190-369 | the effect of the whole sequence of statements, table by table |
| GraphPublish.PublishExact | brainstack/graph_backend_kuzu.py:190-369 | states, conflicts, aliases and outgoing relations of the entity are exactly the snapshot's; those of others are as before, but for claimed keys |
| GraphPublish.PublishedHolds | brainstack/graph_backend_kuzu.py:190-369 | what a committed publish stores, row by row: under each key the fields of the last row of the snapshot with that key, for states, conflicts and aliases with a text; under each id the last entity named; and one edge per relation, in order |
| GraphPublish.EnsuredExactly | brainstack/graph_backend_kuzu.py:168-182 | an entity row shows the last entity with its id, and other rows stay |
| GraphPublish.OthersExactly | brainstack/graph_backend_kuzu.py:212-216 | the relations left after the deletion are exactly those from other entities, in order |
| GraphPublish.PublishTwice | brainstack/graph_backend_kuzu.py:190-369 | publishing a snapshot twice is publishing it once |
| GraphPublish.PublishKeepsEndpoints | brainstack/graph_backend_kuzu.py:314-368 | every edge keeps both endpoints and no entity is dropped |
| GraphPublish.RunShowsUnclaimed | brainstack/graph_backend_kuzu.py:190-372 | after any run of publishes, failed ones included, an entity has all relations of its last committed snapshot, and its rows but those whose keys others have claimed since |
| GraphPublish.RunShowsLatest | brainstack/graph_backend_kuzu.py:190-372 | after any run an entity is shown as last committed exactly when no other entity has claimed one of its keys since |
| GraphPublish.OwnedRunShowsLatest | brainstack/graph_backend_kuzu.py:190-372 | entities whose committed publishes share no row id and no alias text are always shown as last committed |
| GraphPublish.SharedAliasMoves | brainstack/graph_backend_kuzu.py:274-312 | an alias text that another entity claims is from then on shown for that entity alone |
| GraphPublish.RunKeepsEndpoints | brainstack/graph_backend_kuzu.py:314-368 | after any run every edge has both its endpoints |
| GraphBackend.KuzuGraphBackend.PublishEntitySubgraph | brainstack/graph_backend_kuzu.py:184-372 | what is durable after the call is the snapshot's whole effect, row by row, or, whichever statement fails and even if ROLLBACK fails too, nothing of it; without a failure it commits, and a single failing statement leaves no transaction open |
| GraphBackend.KuzuGraphBackend.PublishAll | brainstack/graph_backend_kuzu.py:190-372 | a run of publishes leaves the tables of its log |
| SemanticIndex.RowIdInjective | brainstack/corpus_backend_chroma.py:200 | row ids determine key and section index |
| SemanticIndex.TableExact | brainstack/corpus_backend_chroma.py:189-220 | one row for each section with text, under its id, when indexes are distinct |
| SemanticIndex.FilledMembers | brainstack/corpus_backend_chroma.py:189-199 | exactly the sections with text are indexed |
| SemanticIndex.TableHasSections | brainstack/corpus_backend_chroma.py:189-220 | the row under a key and an index shows the section with text that has the index: its stripped content and heading, its infos and the document's |
| SemanticIndex.PublishShows | brainstack/corpus_backend_chroma.py:167-235 | after a publish a row of the key exists exactly for the sections with text, and shows that section |
| SemanticIndex.UpsertKeepsOthers | brainstack/corpus_backend_chroma.py:222-230 | an upsert never touches another key's rows |
| SemanticIndex.ReplacedExact | brainstack/corpus_backend_chroma.py:167-235 | replacing a key's rows leaves exactly the document's, and every other key's as they were |
| SemanticIndex.UpsertThenDeleteStale | brainstack/corpus_backend_chroma.py:222-235 | upserting and then deleting the ids that are not in the upsert is replacing the key's rows |
| SemanticIndex.ChromaCorpusBackend.PublishUnlocked | brainstack/corpus_backend_chroma.py:167-235 | the publish steps replace the key's rows by those of the sections with text, or fail before or after the upsert; on a healthy store they fail only for a blank key or a repeated index |
| SemanticIndex.ChromaCorpusBackend.RepairAndReopen | brainstack/corpus_backend_chroma.py:110-134 | a repair leaves an empty store and records one event |
| SemanticIndex.ChromaCorpusBackend.PublishDocument | brainstack/corpus_backend_chroma.py:136-165 | one try, and after a corruption error one repair and one more try: a single such error, at any call, keeps no document from being published; the report determines the rows left, and what they show |
| SemanticIndex.ChromaCorpusBackend.IsEmpty | brainstack/corpus_backend_chroma.py:136-159 | a query changes nothing but by a repair, which it makes exactly after a corruption error, and answers rightly; a single such error does not keep it from answering |
| SemanticIndex.ChromaCorpusBackend.PublishAll | brainstack/corpus_backend_chroma.py:136-165 | a run of publishes and queries leaves the rows its log describes |
| SemanticIndex.RunKeepsKeyRows | brainstack/corpus_backend_chroma.py:136-235 | over any run of publishes, failures and repairs, the rows of a key are those its own events leave |
| SemanticIndex.RunRefinesLatest | brainstack/corpus_backend_chroma.py:136-235 | over any run the rows of a key are those of its last published document since the last repair with the half-written ones on top, and that document's alone exactly when these add nothing |
| SemanticIndex.HalfwayShowsBoth | brainstack/corpus_backend_chroma.py:222-235 | a run after which a key has rows of two documents |
| BudgetProjection.Select | brainstack/mempalace_budget_projection.py:181-227 | the loop files every card by its decision and adds up the tokens of the kept ones |
| BudgetProjection.ProjectCanonicalEvents | brainstack/mempalace_budget_projection.py:140-256 | the whole projection, from events to lists |
| BudgetProjection.ClassExactly | brainstack/mempalace_budget_projection.py:55-77 | which events have each class, condition by condition |
| BudgetProjection.TokensExactly | brainstack/mempalace_budget_projection.py:80-89 | the weight of an event is that of its kind, and two each for being eligible and for being answer evidence |
| BudgetProjection.CardsExactly | brainstack/mempalace_budget_projection.py:92-121 | there is one card for each valid event, in order, carrying what the event says |
| BudgetProjection.CardsInOrder | brainstack/mempalace_budget_projection.py:124-132 | cards are read by class, then kind, then id |
| Ordering.StrLeExactly | brainstack/mempalace_budget_projection.py:124-132 | of two texts in a sort key the smaller is a prefix of the other, or smaller where they first differ |
| Ordering.SortStable | brainstack/associative_expansion.py:255-262 | sorting keeps tied elements in the order in which they were |
| BudgetProjection.CriticalIsActive | brainstack/mempalace_budget_projection.py:195-199 | an authority-critical card is always active |
| BudgetProjection.ListsPartition | brainstack/mempalace_budget_projection.py:181-227 | each card lands in exactly one of the four lists |
| BudgetProjection.DroppedForAReason | brainstack/mempalace_budget_projection.py:195-226 | a card is kept exactly when it is critical, or may be active and fits behind the cards kept before it, and for that reason; otherwise it goes to retrieval or to the list of its class |
| BudgetProjection.Spent | brainstack/mempalace_budget_projection.py:181-227 | what is spent is all critical tokens plus optional ones within the budget, none of them when it fails closed |
| BudgetProjection.ProjectionSafe | brainstack/mempalace_budget_projection.py:140-256 | partition, critical cards kept, token sum and bounds, and when it fails closed, for all events |
| BudgetProjection.OrderDoesNotMatter | brainstack/mempalace_budget_projection.py:124-132 | with distinct card ids the projection is the same for every order of the events |
| BudgetProjection.WithinBudgetExactly | brainstack/mempalace_budget_projection.py:181-217 | a selection that does not fail closed keeps the budget exactly when every critical card fits behind what was kept before it |
| BudgetProjection.ProjectionWithinBudget | brainstack/mempalace_budget_projection.py:140-256 | for all events the projection keeps the budget exactly when it does not fail closed and every critical card fits in sorted order |
| BudgetProjection.BudgetExceeded | brainstack/mempalace_budget_projection.py:140-256 | two events whose projection is twice as heavy as the budget and does not fail closed |
| BudgetProjection.CriticalFirstWithinBudget | brainstack/mempalace_budget_projection.py:171-217 | with all critical cards sorted first a projection that does not fail closed is within the budget |
| GraphProjection.ProjectedExactly | brainstack/graphiti_projection.py:114-198 | which events become edges, and that the edge carries the names, source, scope, validity and semantics the event gives |
| GraphProjection.NotProjected | brainstack/graphiti_projection.py:114-148 | which events are skipped, and which issues a rejected one is listed with |
| GraphProjection.EveryEventOnce | brainstack/graphiti_projection.py:105-204 | issues, skipped and edges are, in order, exactly what the rejected, the skipped and the projected events give, and together as many as there are events |
| GraphProjection.BucketsPartition | brainstack/graphiti_projection.py:199-204 | current, prior and inspect-only edges are together all edges |
| GraphProjection.BucketsMean | brainstack/graphiti_projection.py:199-204 | an edge is current exactly when it is answer-safe, and prior exactly when it is prior and not answer-safe |
| GraphProjection.AddEndpointExact | brainstack/graphiti_projection.py:61-73 | adding or merging an endpoint adds the edge's source event and span to that entity, sorted and without repeats, and to no other |
| GraphProjection.AddEdgeKeepsExact | brainstack/graphiti_projection.py:150-155 | after every edge the entities are exactly the endpoints so far, each with exactly the sources of the edges that touch it |
| GraphProjection.ProjectCanonicalEventsToGraphiti | brainstack/graphiti_projection.py:76-231 | the lists, entities and episodes agree with the edges, and the status is pass exactly when no event was rejected and every answerable edge is eligible, visible, unexpired and unconflicted |
| GraphProjection.EdgesHaveEpisodes | brainstack/graphiti_projection.py:120-123 | every edge names a source event that has an episode |
| GraphProjection.EpisodesExactly | brainstack/graphiti_projection.py:120-123 | there is one episode for each source event that a valid event names, of the last one that does |
| GraphProjection.PassExactly | brainstack/graphiti_projection.py:189-213 | no outcome counts against the status exactly when nothing was rejected and every current edge is eligible, visible, unexpired and unconflicted |
| GraphProjection.EventsInOrder | brainstack/graphiti_projection.py:41-44 | the events are read by time, and those of one time by id |
| GraphProjection.SortedByScope | brainstack/graphiti_projection.py:206-207 | each list of edges is sorted by scope, and within a scope by edge id |
| GraphProjection.RebuildIgnoresOrder | brainstack/graphiti_projection.py:41-44 | the events are read in an order that does not depend on how they were given, unless two share time and id |
| Consolidation.BuildConsolidationSource | brainstack/consolidation.py:27-60 | the loop collects the ids and entries of the rows with a positive id, and the fingerprint is of the sorted entries |
| Consolidation.SourceExactly | brainstack/consolidation.py:27-60 | a source names its kind, "source" without one, and under it the ids of the rows with a positive id, in order |
| Consolidation.StatusExact | brainstack/consolidation.py:63-95 | a source is current exactly when every tracked row is present with the same kind, turn, content hash and creation time, degraded exactly when one is missing or none was tracked, and stale otherwise |
| Consolidation.DegradedExactly | brainstack/consolidation.py:63-90 | for any metadata: degraded exactly without a kind, without an id that is not blank, or with such an id that no row has |
| Consolidation.AgreesExactly | brainstack/consolidation.py:11-17 | a row agrees with the tracked one exactly when nothing but the spacing of its texts has changed |
| Consolidation.MatchedExact | brainstack/consolidation.py:77-79 | all rows are matched, in order, exactly when each tracked id is present |
| Consolidation.SameFingerprint | brainstack/consolidation.py:50-59 | fingerprints agree exactly when the rows agree one by one |
| Consolidation.LatestIsTheRow | brainstack/consolidation.py:77 | with distinct ids the row found for an id is the row with that id, whatever the others |
| Consolidation.RowOrderDoesNotMatter | brainstack/consolidation.py:77-95 | the status does not depend on the order of the rows |
| Consolidation.BuildOrderDoesNotMatter | brainstack/consolidation.py:50-59 | the fingerprint does not depend on the order in which the tracked rows were read |
| WriteReceipts.RoundTrip | brainstack/memory_write_receipts.py:59-86 | a reference survives to_dict and from_mapping exactly when its texts are normalised, it has an id, and it has a stable key or no slot |
| WriteReceipts.RequiredExactly | brainstack/memory_write_receipts.py:125-127 | the required ids are those of the required proposals, in order |
| WriteReceipts.ReadReceipt | brainstack/memory_write_receipts.py:284-291 | the loop over one receipt's ids covers or fails exactly the required ones it lists |
| WriteReceipts.ReadReceipts | brainstack/memory_write_receipts.py:272-291 | the loop over receipts collects exactly the covered ids and the scope mismatches of committed receipts |
| WriteReceipts.CoversExactly | brainstack/memory_write_receipts.py:238-291 | a receipt covers an id exactly when it has the schema, status "committed", a reference that is complete, truth-eligible and allowed, lists the id, and agrees with every scope key that is asked for |
| WriteReceipts.ComputeReceiptCoverage | brainstack/memory_write_receipts.py:259-316 | covered ids are exactly the required ids some committed in-scope receipt lists; the failure entries are exactly the scope mismatches and the other missing ids |
| WriteReceipts.MissingExactly | brainstack/memory_write_receipts.py:292 | the missing ids are exactly the required ones not covered, in order |
| WriteReceipts.ReceiptOrderDoesNotMatter | brainstack/memory_write_receipts.py:272-303 | the covered set depends only on which receipts there are |
| WriteReceipts.MoreReceiptsCoverMore | brainstack/memory_write_receipts.py:272-291 | more receipts cover more |
| WriteReceipts.MoreReceiptsNeverLower | brainstack/memory_write_receipts.py:296-303 | more receipts never lower the coverage status |
| WriteReceipts.AckSlotsNameTheProposals | brainstack/memory_write_receipts.py:332-342 | covered and missing slots follow the covered and missing ids, each the slot of the last proposal with the id |
| WriteReceipts.CompleteExactly | brainstack/memory_write_receipts.py:296-303 | the status is complete exactly when something is required and every required id is covered |
| WriteReceipts.Acknowledge | brainstack/memory_write_receipts.py:259-380 | a full acknowledgement is given, and a claim of commitment passes the guard, exactly when every required proposal has a committed receipt in scope; a partial one exactly when some are covered and some are not; an answer without the claim always passes |
| CapturePipeline.DecideItems | brainstack/capture_pipeline.py:214-239 | the loop makes one decision, in order, for every item whose id is in the plan |
| CapturePipeline.RawCandidate | brainstack/capture_pipeline.py:63-122 | an item given as a mapping is a candidate exactly when its slot, value and span are not blank and its confidence is absent or at least one half |
| CapturePipeline.RawItem | brainstack/capture_pipeline.py:63-92 | its texts are normalised, and what stands in for each one that is missing |
| CapturePipeline.PlanExactly | brainstack/capture_pipeline.py:142-147 | the plan refers to exactly the candidates, in order |
| CapturePipeline.PlanStatus | brainstack/capture_pipeline.py:132-153 | a plan is rejected for another role than the user's, and otherwise says whether there is a candidate |
| CapturePipeline.AcceptedExactly | brainstack/capture_pipeline.py:214-239 | an id is accepted exactly when it is in the plan and an item with it was admitted |
| CapturePipeline.ReceiptCovers | brainstack/capture_pipeline.py:272-283 | the receipt built for a proposal covers that proposal and no other, and only with a slot and normalised scope keys |
| CapturePipeline.RawItemsSurvive | brainstack/capture_pipeline.py:63-102 | items read from mappings always survive the plan's round trip |
| CapturePipeline.RefsReadBack | brainstack/capture_pipeline.py:264-270 | a plan of surviving references is read back unchanged |
| CapturePipeline.Simulate | brainstack/capture_pipeline.py:247-296 | from inputs to acknowledgement: when coverage is complete for any inputs, and that a non-user turn has no plan, no receipts, no applicable coverage and no acknowledgement |
| CapturePipeline.SavedExactly | brainstack/capture_pipeline.py:247-296 | a user turn is fully saved exactly when scope keys are normalised, something is needed, and for every needed item one with its id was admitted |
| HindsightAdapter.NormalizeProposalActionBatch | brainstack/hindsight_spine_adapter.py:97-165 | the loop normalises, counts and drops actions, and derives status and failure; no action left is spoken by an assistant |
| HindsightAdapter.ActionsExactly | brainstack/hindsight_spine_adapter.py:105-145 | the actions are made of exactly the items that no assistant spoke, in order, each with its place as index |
| HindsightAdapter.CountsExactly | brainstack/hindsight_spine_adapter.py:105-119 | the counts count the items dropped for their speaker, the unsupported ones, and the kept ones without a source |
| HindsightAdapter.StatusExactly | brainstack/hindsight_spine_adapter.py:146-153 | the status is the given one, or "ok" or "empty", and degraded if an action was dropped, or with an "ok" if something is unsupported or unsourced |
| HindsightAdapter.FailureExactly | brainstack/hindsight_spine_adapter.py:147-151 | the failure is the given one, and says how many actions were dropped, and why unless it has a reason |
| HindsightAdapter.NormalizeActionIsNormal | brainstack/hindsight_spine_adapter.py:120-145 | a kept action is in normal form whatever the donor sent |
| HindsightAdapter.NormalActionFixed | brainstack/hindsight_spine_adapter.py:105-145 | an action in normal form is kept as it is |
| HindsightAdapter.Renormalize | brainstack/hindsight_spine_adapter.py:97-165 | normalising a normalised batch leaves its actions, status and failure unchanged |
| HindsightAdapter.KeptPlusDropped | brainstack/hindsight_spine_adapter.py:113-115 | every mapped action is kept or dropped for its speaker |
| HindsightBridge.VerifiedSourceRefs | brainstack/hindsight_public_api_bridge.py:396-433 | the spans are exactly the listed ones the batch knows, in the order listed; the events exactly those of the spans and then the listed known ones, in that order; each once |
| HindsightBridge.VerifiedExactly | brainstack/hindsight_public_api_bridge.py:411-417 | a verified span is one that the result names, in its list or on its own, and that the batch knows |
| HindsightBridge.KnownEventsClean | brainstack/hindsight_public_api_bridge.py:400-410 | every known event is non-blank, stripped, and belongs to a known span |
| HindsightBridge.KnownExactly | brainstack/hindsight_public_api_bridge.py:400-410 | the batch knows exactly the spans it names, under the first of two names, and for each the event of the last one with that id that has an event |
| HindsightBridge.ReadResults | brainstack/hindsight_public_api_bridge.py:470-514 | the items are made from the results with verified sources, in order, each with exactly its own result's ids; the other results are counted |
| HindsightBridge.SurvivorsExactly | brainstack/hindsight_public_api_bridge.py:470-514 | exactly the results with a verified span and event that no assistant spoke survive, in order, and the others are counted |
| HindsightBridge.ResultsBecomeActions | brainstack/hindsight_public_api_bridge.py:470-542 | normalising keeps, in order, the action of every such result that no assistant spoke, with its ids, reference and texts |
| HindsightBridge.ProposalBatchFromHindsightRecall | brainstack/hindsight_public_api_bridge.py:461-542 | the surviving actions are those of the sourced results that no assistant spoke, in order, each with exactly its result's verified spans and events; surviving, unsourced and assistant-dropped are together all results; the status is degraded exactly when one was lost, and the failure says how many for which cause |

## Left out

- ChunkRanges.SplitChunkRanges: asks for a limit of at least 1, because with less the source need not terminate; what its loop then does is `ChunkRanges.SplitEnd`, which takes any limit and start.
- Claims.BuildOfflineDocumentPilot: leaves out the document header with its title, slug and hashes, and the document id copied into every record; identifiers come from naming functions.
- DocumentSections.SplitSections: takes the heading rule as a parameter; `HeadingOf` is the source's rule.
- Corpus.ScanBlocks: takes the heading pattern as a parameter, since it is a regular expression.
- AssociativeExpansion.BuildAssociativeExpansion: scores are real numbers, for which rounding to six places is the identity; elapsed time, the payload's retrieval fields and its keyword score are not modelled; the search is its answer to the n-th call.
- BehaviorPolicyCompiler.CompileBehaviorPolicy: starts from the parsed rules; parsing the style contract, hashes and timestamps are not modelled.
- GraphBackend.KuzuGraphBackend.PublishEntitySubgraph: the defaults of missing payload fields are not modelled.
- SemanticIndex.ChromaCorpusBackend.PublishDocument: embeddings, locks and quarantine paths are not modelled; that the collection refuses a batch with repeated ids is an assumption about it.
- BudgetProjection.ProjectCanonicalEvents: the counters other than dropped critical cards, the raw-text scan and the choice of nested canonical events are not modelled.
- GraphProjection.ProjectCanonicalEventsToGraphiti: starts after read-model supersession; entities are values in a map rather than mutated dictionaries, and entities and episodes are not listed in key order.
- WriteReceipts.ComputeReceiptCoverage: receipts are well-typed records; the checks for values that are not mappings or sequences are not modelled.
- CapturePipeline.Simulate: plan, receipt and transaction ids that nothing compares are not modelled.
- HindsightBridge.ProposalBatchFromHindsightRecall: where the source accepts two names for a metadata entry the model has one field, except for the span, event and speaker names that provenance depends on.
- Regular expressions and natural language (`literal_index.py`, `legacy_graph_text_extractor.py`): opaque where they are needed.
- SQLite, Chroma, Kuzu and embedding transports, file locks, daemons, installers and command lines: input and output.
- Ranking queries of the two backends: the choice of results is the database's.
- `core/packet_budget`, `core/admission`, `projection_semantics` and the retrieval pipeline: opaque, so `current_truth_view.py` and `control_plane.py` are not modelled.
- Report builders, key scans, health cards and configuration normalisers: single-branch facts.
- `_render_compact_rules` in `active_preference_contract.py` and the splitters in `corpus_ingest.py` and `file_corpus_source.py`: they would repeat easier versions of what is here.
