# Verified model of the parliamentary data worker

The worker copies the open data of the Assemblée nationale into a `raw` schema and
projects it into a `public` one. This project models its parsers, its stores, its
projections and its run accounting in Dafny, and proves what its documentation and its
tests promise of them. `dafny verify dfyconfig.toml` checks everything.

## How it is modelled

| part | modules |
|---|---|
| Debate-point tree | `DebatePoints` |
| Law-text parser | `LawTextParser` |
| Raw store and repositories | `RawStore`, `RawRepositories`, `RawLinkedSaves` |
| Runs and reports | `SyncReports`, `CollectAmendments`, `CollectLawTexts` |
| Dossiers | `DossierParser`, `LawEntities`, `LawRoundTrip`, `LawRows` |
| `public.debate` and slugs | `Slugs`, `DebateProjection` |
| Versions of a text | `VersionOrder`, `LawTextProjection` |
| Amendments by pages | `AmendmentPages` |
| Scrutins | `BallotLinks` |
| Readings and what points at them | `ReadingCodes`, `ReadingLinks`, `ReadingProjections`, `SittingLinks`, `ReadingIndexes` |
| Runs again | `LawRunsAgain`, `PublicRunsAgain`, `SyncAgain` |
| Shared | `Prelude`, `Sorting`, `LastWins` |

Code that works by changing things step by step is a class or a loop here too
(`Collector`, `RawRepository`, `PublicDebates`, `PublicLaws`, `AmendmentProjection`,
`LawTexts`, `PublicSchema`, `Lookups`, `Projections`), proved against a specification function; the properties
are then proved of that function, for every input and every sequence of runs.

A table is a map from its natural key to a row, a transaction is one atomic step, time is
a parameter `now`, and failures are an oracle that chooses which steps raise. An upsert
follows PostgreSQL's `INSERT ... ON CONFLICT DO UPDATE`: only named columns change,
sequences advance even on a conflict, and a multi-row statement with a repeated key
aborts its transaction. Columns that no property mentions are one opaque `content`.

## Findings

Where the code and its documentation differ, the model follows the code.

- The repository's README says that every run is idempotent. Proved of content: for every
  save of the raw schema (`RawStore.SecondRunChangesNoContent`), for agenda then comptes
  rendus (`DebateProjection.AgendaThenDebatesIsIdempotent`), and for each run of the law,
  amendment, law-text and ballot projections when the database lists the raw rows the same
  way twice (`PublicRunsAgain.RunTwiceIsOnce`). Exceptions:
  - Three queries on the stages have no ORDER BY and another leaves ties, and the last row
    wins. In another listing a run is still idle when the rows that may come last answer alike
    (`PublicRunsAgain.RelistedRunIsIdle`); for each index and for a law that is also
    necessary (`ReadingIndexes.AmendmentIndexAnyOrderIff`, `TextIndexAnyOrderIff`,
    `BallotIndexAnyOrderIff`, `LawRunsAgain.LawSettledIff`), and an input shows it
    (`PublicRunsAgain.SharedTextMovesWithTheListing`). A stale stage next to its replacement
    is enough for such a tie.
  - The amendment of a scrutin depends on the order of the amendment rows and of a set of
    texts, unless the texts settle the number (`BallotLinks.AnyOrderAgreesIff`,
    `BallotLinks.OneNumberTwiceIsUnsettled`).
  - A collection run again after some flushes failed creates what they held, and nothing else
    (`CollectAmendments.SecondCollection`).
  - `updated_at` moves again for a law text whose dossier is looked up and known
    (`RawLinkedSaves.LawTextTimeMovesIffDossierKnown`), for a political group listed twice with
    different contents (`RawRepositories.GroupsSavedTwice`), and for an amendment in two batches
    with different contents (the guard of `CollectAmendments.SecondCollectionIsIdle`).
- A sync says that it runs "in dependency order". Laws are projected before the agenda, so a
  law gets no link to a sitting that the same sync adds; the second sync adds it, and its
  reports count laws, not links. Twice is once iff there is no such sitting, and the third
  sync is always idle (`SyncAgain.SyncTwiceIff`, `SyncAgain.NewSittingIsLinkedLate`,
  `SyncAgain.ThirdSyncIsIdle`).
- The route of article versions says it uses the order of `public.law_text.position`. It
  does after a run, whatever the table held, iff no two versions of the dossier are of the
  kinds in `VersionOrder.Disagree` and the run numbered all of them: the projection filters
  on legislature and availability, the route does not
  (`LawTextProjection.RouteAgreesIff`, `LawTextProjection.TwoLegislaturesBreakTheRoute`).
  One of these kinds needs a version of unknown kind, which public.law_text refuses (NOT
  NULL, `serving/tables.py:171`): there the run raises instead of storing adverse positions, so
  a run that completes parts from the route only by 9999-12-31 against no date or by the
  selection.
- The two statuses of a reading may contradict each other, as in adopted yet scheduled or
  in discussion yet completed: exactly when the deciding act has a code without a date or a
  date without a code (`DossierParser.OutcomeMeetsCalendarIff`).
- The documentation of `examined_at` leaves promulgation out; the code counts it.
- `unique_slug` does not check the suffixed slug: distinctness holds iff no step collides
  (`Slugs.DistinctIffNeverCollides`).
- "Both cases become one tree": true, and acyclic, but the list is the preorder of that
  tree iff no heading lies inside an enclosing point that goes on after it
  (`DebatePoints.ListIsPreorderIff`, `DebatePoints.NestedArcsMayCross`).
- An article heading that is only "(nouveau)" makes the whole text fail
  (`LawTextParser.LoneNewMarkerFails`).
- A limit of 0 means no limit, and a negative one counts from the end
  (`CollectLawTexts.Cut`). Marking a uid without kind as unavailable raises.
- A sitting without state sorts after the cancelled ones in the agenda queries
  (`DebateProjection.StatelessTwinIsSuffixed`).
- A stage that disappears from the source is never deleted from the raw table
  (`LawRoundTrip.StagesRoundTripIffNoStale`).

## Model

| member | source | states |
|---|---|---|
| `DebatePoints.Collector.SectionParent` | src/infrastructure/adapters/an_debate_adapter.py:225-231 | the backward search returns the uid of the last preceding point with a smaller nivpoint, and nothing exactly when no preceding point has one |
| `DebatePoints.Collector.CollectPoints` | src/infrastructure/adapters/an_debate_adapter.py:188-223 | one recursive call appends exactly the entries of its subtree, in order, to the two lists, which stay parallel; a node without uid appends nothing, its subtree included |
| `DebatePoints.ParsePoints` | src/infrastructure/adapters/an_debate_adapter.py:171-176 | the two lists of a compte rendu are those of the recursive specification of the forest, with no parent for the roots |
| `DebatePoints.PointsArePreorder` | src/infrastructure/adapters/an_debate_adapter.py:200-223 | for every forest, the uids of the list are the depth-first preorder of the forest once the subtrees of uid-less nodes are cut |
| `DebatePoints.ParentIsEarlier` | src/infrastructure/adapters/an_debate_adapter.py:203-231 | for every forest, a non-null parent uid is the uid of a strictly earlier point |
| `DebatePoints.ParentWalksDescend` | src/infrastructure/adapters/an_debate_adapter.py:203-231 | with distinct uids, every walk along parent uids goes strictly backwards in the list, so it repeats nothing and is no longer than the position it starts from plus one: the result is an acyclic forest |
| `DebatePoints.ParentsAreRecorded` | src/infrastructure/adapters/an_debate_adapter.py:203-221 | the recorded parent uids are those at the positions computed from the nesting and the levels; each stands strictly before |
| `DebatePoints.ListIsPreorderIff` | src/infrastructure/adapters/an_debate_adapter.py:192-231 | for every document: the list is the preorder of one forest whose edges are the recorded parents, iff no two recorded arcs cross, iff no point outside any other has its heading inside an enclosing point that has a further child before it |
| `DebatePoints.PreorderIffNoArcsCross` | src/infrastructure/adapters/an_debate_adapter.py:192-231 | for any backward parent positions: they are the edges of a forest listed in preorder iff no arcs cross |
| `DebatePoints.HeadingsNeverCross` | src/infrastructure/adapters/an_debate_adapter.py:225-231 | arcs of the nearest-smaller-level rule never cross each other |
| `DebatePoints.FlatDocumentIsPreorderOfItsTree` | src/infrastructure/adapters/an_debate_adapter.py:192-231 | on a document without nested points the list is the preorder of one forest whose edges are the recorded parents |
| `DebatePoints.NestedArcsMayCross` | src/infrastructure/adapters/an_debate_adapter.py:192-205 | a document on which it is not: D takes B as heading although A, which encloses B, has a further child C in between |
| `DebatePoints.TopLevelParent` | src/infrastructure/adapters/an_debate_adapter.py:225-231 | the parent of a point that no other encloses is the nearest preceding one with a smaller level; it has none iff every preceding level is at least its own |
| `DebatePoints.LevelIs` | src/infrastructure/adapters/an_debate_adapter.py:203-203 | a level that is missing, unreadable or 0 counts as 1 |
| `LawTextParser.Parse` | src/infrastructure/adapters/an_law_text_adapter.py:67-113 | the one-pass parser returns the declarative segmentation of the paragraphs, and raises exactly when some non-empty article heading reduces to an empty reference |
| `LawTextParser.OneArticlePerHeading` | src/infrastructure/adapters/an_law_text_adapter.py:80-98 | one article per non-empty article heading, all of them, in document order, with positions exactly 1..n, cited as that heading says |
| `LawTextParser.OpeningsAreAllOfThem` | src/infrastructure/adapters/an_law_text_adapter.py:83-98 | the headings that open articles are listed in increasing position and none is missed |
| `LawTextParser.SpansPartition` | src/infrastructure/adapters/an_law_text_adapter.py:80-112 | a paragraph belongs to an article iff the heading of that article is the last article heading before it, so to at most one article, and to none when the last heading is empty or there is none |
| `LawTextParser.AlineasAreTheOrdinaryParagraphs` | src/infrastructure/adapters/an_law_text_adapter.py:100-111 | every non-empty paragraph of a span that is neither heading nor mention is an alinéa, at the rank given by those before it |
| `LawTextParser.AlineasCount` | src/infrastructure/adapters/an_law_text_adapter.py:100-111 | there are as many alinéas as such paragraphs, so nothing else is kept |
| `LawTextParser.ContentIsNoneIffNoAlinea` | src/infrastructure/adapters/an_law_text_adapter.py:75-78 | an article has no content exactly when its span holds no alinéa |
| `LawTextParser.SectionIs` | src/infrastructure/adapters/an_law_text_adapter.py:92-106 | for every article, on positions: the text of the last title number before its heading and of each non-empty title wording since, a dash, then the same of the last chapter number since that title; only the part that is not empty when one is, none when both are |
| `LawTextParser.MentionIs` | src/infrastructure/adapters/an_law_text_adapter.py:108-109 | its mention is that of the last mention paragraph of the article, between its parentheses, none when that is empty or missing |
| `LawTextParser.ContentIs` | src/infrastructure/adapters/an_law_text_adapter.py:75-78 | its content is its ordinary, non-empty paragraphs in order, one per line, none when it has none |
| `LawTextParser.LoneNewMarkerFails` | src/infrastructure/adapters/an_law_text_adapter.py:88-92 | a heading that is only the marker for new articles is not treated as empty: it makes the parse of the whole text raise |
| `LawTextParser.NewMarkerIsNotPartOfTheRef` | src/infrastructure/adapters/an_law_text_adapter.py:90-92 | a heading followed by spaces and the marker, in any letter case, is a new article cited without them |
| `LawTextParser.OtherHeadingsAreTheirRef` | src/infrastructure/adapters/an_law_text_adapter.py:90-92 | a heading is its own reference iff it is not marked new |
| `LawTextParser.MentionIsTheTextInside` | src/infrastructure/adapters/an_law_text_adapter.py:108-109 | stripping the parentheses of a mention gives the text inside, whatever their number |
| `RawStore.BulkIsFold` | src/infrastructure/persistence/raw/amendment_repository.py:18-33 | a multi-row upsert with distinct keys leaves the same store, ids included, as its rows upserted one by one |
| `RawStore.BulkIgnoresOrder` | src/infrastructure/persistence/raw/amendment_repository.py:18-33 | the order of the rows of one statement changes nothing but which fresh id goes to which inserted row |
| `RawStore.RowAfter` | src/infrastructure/persistence/raw/deputy_repository.py:29-49 | fate of one row over any run of upserts: present iff it was or is written, its columns are the old ones overridden by what was written, and an existing row keeps its id and creation time |
| `RawStore.SecondRunChangesNoContent` | README.md:75-77 | whatever the store and the writes, running them a second time adds and removes no key and changes no id, creation time or content column |
| `RawStore.SecondRunMovesNoTime` | src/infrastructure/persistence/raw/deputy_repository.py:38-45 | if no two writes disagree about one tracked row, the second run moves no updated_at |
| `RawStore.TimesStayIffNoConflict` | src/infrastructure/persistence/raw/deputy_repository.py:38-45 | for writes naming the same columns and a later clock, the second run leaves every updated_at alone iff no two writes disagree about one tracked row |
| `RawStore.UnnamedColumnsSurvive` | src/infrastructure/persistence/raw/deputy_repository.py:40-40 | a column that no write names keeps its value |
| `RawRepositories.RawRepository.BulkUpsert` | src/infrastructure/persistence/raw/amendment_repository.py:18-33 | the multi-row upsert: refused iff empty, of mixed columns or with a repeated key, and then nothing changes; otherwise the rows land and each flag says whether its key was absent |
| `RawRepositories.RawRepository.SaveDeputy` | src/infrastructure/persistence/raw/deputy_repository.py:56-80 | the deputy, and each mandate and each role under its own key, the last of a repeated key; no other row moves; created iff the deputy was unknown |
| `RawRepositories.DeputyIsStored` | src/infrastructure/persistence/raw/deputy_repository.py:56-80 | the same of the sequence of upserts of the transaction |
| `RawRepositories.TrackedRowsAreStored` | src/infrastructure/persistence/raw/deputy_repository.py:82-91 | a list of entities saved in one table: the row of each key holds the last of them with the bookkeeping columns, and no other row moves |
| `RawRepositories.RawRepository.SavePoliticalGroups` | src/infrastructure/persistence/raw/deputy_repository.py:82-91 | the groups are upserted one by one, repeated uids allowed |
| `RawRepositories.RawRepository.SaveBatch` | src/infrastructure/persistence/raw/amendment_repository.py:40-55 | a batch lands whole or not at all; created counts the absent keys and created + updated is the size of the batch |
| `RawRepositories.RawRepository.SaveAggregate` | src/infrastructure/persistence/raw/law_repository.py:23-35 | root and two lists of children in one transaction: a refused list rolls everything back |
| `RawRepositories.DeputySavedTwice` | src/infrastructure/persistence/raw/deputy_repository.py:56-80 | a deputy saved twice: nothing created, no content and no updated_at moved, repeated mandates included |
| `RawRepositories.CreatedCountIs` | src/infrastructure/persistence/raw/amendment_repository.py:48-55 | what an accepted statement reports as created is by how many rows the store grew |
| `RawRepositories.BatchSavedTwice` | src/infrastructure/persistence/raw/amendment_repository.py:40-55 | an accepted batch is accepted again, creates nothing and moves neither content nor time |
| `RawRepositories.AggregateSavedTwice` | src/infrastructure/persistence/raw/ballot_repository.py:30-46 | a law, ballot or agenda item with any children saved twice: nothing created, no content and no tracked time moved |
| `RawRepositories.ResolvedLinksSurvive` | src/infrastructure/persistence/raw/mappers/ballot_mapper.py:8-32 | resolved_dossier_uid and resolved_amendment_uid keep their value through any number of saves of ballots whose rows name the columns of the mapper |
| `RawRepositories.GroupsSavedTwice` | src/infrastructure/persistence/raw/deputy_repository.py:82-91 | saving a list of groups twice changes no content, and moves no updated_at iff groups with one uid are equal |
| `RawLinkedSaves.SaveSitting` | src/infrastructure/persistence/raw/debate_repository.py:37-75 | sitting, points and speeches in one transaction; it fails, changing nothing, iff a point or a speech is repeated or rows of one statement differ in columns |
| `RawLinkedSaves.SittingIsStored` | src/infrastructure/persistence/raw/debate_repository.py:37-75 | after it the sitting, each point with a uid and each speech with a uid of such a point are stored with their columns, a point under the sitting, a speech under the id of its own point; no other row moved |
| `RawLinkedSaves.SpeechKnowsItsPoint` | src/infrastructure/persistence/raw/debate_repository.py:56-73 | every stored speech refers to the surrogate id that its own point carries in the resulting store |
| `RawLinkedSaves.SpeechesLinkTheSameWay` | src/infrastructure/persistence/raw/debate_repository.py:56-73 | because ids are stable, a second save of the sitting writes the very same speech rows |
| `RawLinkedSaves.SittingSavedTwice` | src/infrastructure/persistence/raw/debate_repository.py:37-75 | a sitting with its points and speeches saved twice changes no content and moves no time |
| `RawLinkedSaves.SaveLawText` | src/infrastructure/persistence/raw/law_text_repository.py:47-71 | header upsert, dossier filled from the document table when the text names none, articles; rolled back iff the articles are refused |
| `RawLinkedSaves.LawTextIsStored` | src/infrastructure/persistence/raw/law_text_repository.py:47-71 | after it the header holds its columns and the dossier it names, else that of its document; each article is stored; no other row moved |
| `RawLinkedSaves.TextHeaderTwice` | src/infrastructure/persistence/raw/law_text_repository.py:47-71 | the header after a second save: same id, creation time and content; updated_at is the new clock iff the dossier had to be looked up and is known |
| `RawLinkedSaves.TextSavedTwice` | src/infrastructure/persistence/raw/law_text_repository.py:47-71 | saving a law text with its articles twice changes no key, id, creation time or content column of any row |
| `RawLinkedSaves.LawTextTimeMovesIffDossierKnown` | src/infrastructure/persistence/raw/law_text_repository.py:50-65 | saving a law text again moves its updated_at iff the text names no dossier and its document gives one, because the header is first written with none |
| `SyncReports.SyncReport.RecordFailure` | src/domain/shared/results.py:58-61 | one more failure, and the sample stays the first 20 failing uids |
| `SyncReports.FailingIsSample` | src/domain/shared/results.py:58-61 | after any failures in a row the sample is the first 20 of all failing uids |
| `SyncReports.RunReportIs` | src/domain/shared/results.py:34-42 | over any run each item is counted once, and the sample has the first min(20, failed) failing uids in order |
| `SyncReports.Add` | src/application/use_cases/sync_all.py:135-141 | one turn of the merge; the slice bound is never negative, so Python never counts from the end |
| `SyncReports.Merge` | src/application/use_cases/sync_all.py:132-142 | the loop computes the fold of the reports, its sample never above 20 |
| `SyncReports.MergeIsOneRun` | src/application/use_cases/sync_all.py:132-142 | merging the reports of several runs is the report of one run over all their items, sample included |
| `SyncReports.MergeOfOkRuns` | src/domain/shared/results.py:73-78 | if no run fails more than one item in five, neither does the merge, which is ok iff some run was |
| `SyncReports.IsOkIff` | src/domain/shared/results.py:73-78 | a run is ok iff it had items and failed / processed is at most 0.2 |
| `CollectAmendments.Collector.Flush` | src/application/use_cases/collect_amendments.py:70-83 | an empty batch does nothing; a batch that lands adds its counts; a batch that raises changes no row and records all its uids |
| `CollectAmendments.Collector.Execute` | src/application/use_cases/collect_amendments.py:51-68 | the loop over the stream leaves the store and report of the consecutive batches; a dry run only counts |
| `CollectAmendments.BatchesCutTheStream` | src/application/use_cases/collect_amendments.py:51-63 | the batches concatenate to the stream, all have 500 amendments but the last, and none is empty |
| `CollectAmendments.RunStoresWhatLands` | src/application/use_cases/collect_amendments.py:70-83 | for any pattern of failures the store is that of exactly the batches that landed, the sample that of the uids of the others, and the counters are their sizes |
| `CollectAmendments.EachBatchLandsOrSinks` | src/application/use_cases/collect_amendments.py:70-83 | all rows of a batch that lands are among the stored rows, together and in order; all uids of any other batch are among the failures |
| `CollectAmendments.EveryAmendmentLandsOrSinks` | src/application/use_cases/collect_amendments.py:70-83 | stored rows and failing uids are together as many as the amendments |
| `CollectAmendments.CountersAddUp` | src/application/use_cases/collect_amendments.py:51-83 | processed = created + updated + failed + skipped over any run |
| `CollectAmendments.CreatedIsGrowth` | src/application/use_cases/collect_amendments.py:70-79 | over any run, created is by how many rows the store grew |
| `CollectAmendments.SecondCollection` | README.md:75-77 | collecting the same stream again, whichever flushes raise in either run: created is the number of rows added, those named by a batch that lands now and that nothing held; no row is lost or renumbered; a row changes content only if a batch that has it landed in one run and not in the other |
| `CollectAmendments.SecondCollectionIsIdle` | README.md:75-77 | when the same flushes raise, collecting again reports created: 0 and changes no content, and no updated_at unless landed rows disagree about one amendment |
| `CollectLawTexts.PendingTexteUids` | src/infrastructure/persistence/raw/law_text_repository.py:26-45 | exactly the pending uids, each once; a later deposit first, those of one day by uid, undated ones last |
| `CollectLawTexts.PendingIs` | src/infrastructure/persistence/raw/law_text_repository.py:26-45 | what is pending: a projet or proposition deposited at the Assemblée, with a kind, of the dossier asked for, without a text row |
| `CollectLawTexts.MarkTouchesAvailabilityOnly` | src/infrastructure/persistence/raw/law_text_repository.py:73-86 | marking a text makes it unavailable, gives a new row its kind and the legislature of its uid, and changes nothing else of an existing row, times included, nor any other row |
| `CollectLawTexts.LegislatureIsInTheUid` | src/infrastructure/persistence/raw/law_text_repository.py:76-76 | that legislature is the number at characters 10 and 11 of the uid, one digit when the uid ends there, and 0 without digits |
| `CollectLawTexts.Collector.CollectOne` | src/application/use_cases/collect_law_texts.py:54-73 | one uid: the store and the single counter that each outcome of the website and of the database gives |
| `CollectLawTexts.OutcomeIs` | src/application/use_cases/collect_law_texts.py:54-73 | what each outcome of one uid says of the store: a failure changes nothing, a skip marks the text unavailable, created and updated store the header and its articles |
| `CollectLawTexts.CutIs` | src/application/use_cases/collect_law_texts.py:44-44 | no limit or 0 keeps all, n the first n, -n all but the last n |
| `CollectLawTexts.Collector.Execute` | src/application/use_cases/collect_law_texts.py:30-78 | the whole run over the pending list or the uid asked for, cut as Python slices (0 means no limit); a dry run only counts |
| `CollectLawTexts.PendingAfterRun` | src/infrastructure/persistence/raw/law_text_repository.py:26-86 | after any run, in any scope, exactly the uids it dealt with have left the pending set |
| `CollectLawTexts.IncrementalRunLeaves` | src/application/use_cases/collect_law_texts.py:40-73 | what is pending after an incremental run is what the limit cut plus what failed; nothing when there was neither |
| `CollectLawTexts.NoStepUpdates` | src/application/use_cases/collect_law_texts.py:54-73 | no step of an incremental run is an update, and its counters add up |
| `CollectLawTexts.EachUidSucceedsAtMostOnce` | src/application/use_cases/collect_law_texts.py:40-73 | over any history of incremental runs and of other writes, no uid is fetched or marked unavailable twice |
| `CollectLawTexts.SuccessesOfRun` | src/application/use_cases/collect_law_texts.py:40-73 | and every uid that a run of the history dealt with is counted there |
| `CollectLawTexts.KindIsTheMark` | src/domain/entities/law_text.py:40-45 | the letters before the number decide: BTC, BTA, B, while TAP has no kind |
| `CollectLawTexts.NoKindWithoutMark` | src/domain/entities/law_text.py:40-45 | without a number, or with another mark before it, there is no kind |
| `Slugs.SlugIsNormal` | src/infrastructure/persistence/serving/slug.py:9-13 | for any text and any folding, a slug has only [a-z0-9-], no leading, trailing or doubled dash, and respects the maximum length |
| `Slugs.FixedIffNormal` | src/infrastructure/persistence/serving/slug.py:9-13 | for a folding that leaves ASCII alone, slugify leaves a text alone iff it is such a normal form |
| `Slugs.SlugNeverChanges` | src/infrastructure/persistence/serving/agenda_projection.py:69-80 | over any sequence of projected rows, a slug once written never changes |
| `Slugs.StepKeepsDistinctIff` | src/infrastructure/persistence/serving/slug.py:20-27 | one row keeps slugs pairwise distinct iff it is not a new row whose slug and suffixed slug are both taken |
| `Slugs.DistinctIffNeverCollides` | src/infrastructure/persistence/serving/slug.py:20-27 | over any sequence of rows, slugs end pairwise distinct iff no step met such a collision |
| `Slugs.SuffixedSlugMayCollide` | src/infrastructure/persistence/serving/slug.py:27-27 | a table and a row for which the suffixed slug is already owned by another row |
| `Slugs.LaterRequestIsSuffixed` | src/infrastructure/persistence/serving/slug.py:20-27 | of two new rows asking for one slug in a run, the later one gets its uid appended |
| `DebateProjection.PublicDebates.ProjectAgenda` | src/infrastructure/persistence/serving/agenda_projection.py:44-87 | the run upserts the sittings of the legislature, confirmed before cancelled; created counts the rows that did not exist |
| `DebateProjection.PublicDebates.ProjectDebates` | src/infrastructure/persistence/serving/debate_projection.py:31-79 | the run upserts one row per compte rendu of the legislature, by date, on its target row |
| `DebateProjection.CalendarStatusIs` | src/infrastructure/persistence/serving/agenda_projection.py:28-37 | cancelled, scheduled before the start, completed once it has a compte rendu or its announced end is past (twelve hours after the start by default), else ongoing: each exactly |
| `DebateProjection.SittingIsShown` | src/infrastructure/persistence/serving/agenda_projection.py:63-81 | after the agenda run the row of every sitting has its title, start, number (0 when missing) and status |
| `DebateProjection.CreatedIsGrowth` | src/infrastructure/persistence/serving/agenda_projection.py:82-87 | created is by how many rows the table grew |
| `DebateProjection.UpdatedAtIs` | src/infrastructure/persistence/serving/agenda_projection.py:73-81 | updated_at becomes the moment of the run on a row that it updated, and stays NULL on one that it only inserted |
| `DebateProjection.RowsAfter` | src/infrastructure/persistence/serving/agenda_projection.py:69-85 | a row is there iff it was or is written, and an existing one keeps its id and slug |
| `DebateProjection.RowCarriesLastWrite` | src/infrastructure/persistence/serving/agenda_projection.py:73-81 | a row carries what its last write said, and the source page of the last write that names one; unwritten rows are untouched |
| `DebateProjection.RunTwiceIsOnce` | README.md:75-77 | any run of upserts done twice equals the run done once, updated_at aside, and creates nothing |
| `DebateProjection.RunAgain` | src/infrastructure/persistence/serving/agenda_projection.py:69-85 | a run of upserts whose last writes are those of an earlier run changes nothing but updated_at and creates nothing |
| `DebateProjection.TargetAnyOrderIff` | src/infrastructure/persistence/serving/debate_projection.py:35-44 | every listing of the agenda sends a compte rendu to the same row iff the referencing items that may come first are one |
| `DebateProjection.RelistedSittingsSayTheSame` | src/infrastructure/persistence/serving/debate_projection.py:31-77 | under that condition and unique uids, both projections say the same of every row in the end, whatever order tied rows come in |
| `DebateProjection.AgendaThenDebatesIsIdempotent` | src/infrastructure/persistence/serving/debate_projection.py:57-79 | agenda then comptes rendus, twice over the same raw data and clock, leave public.debate as once, updated_at aside, and create nothing, although each overwrites columns of the other |
| `DebateProjection.AgendaOfIs` | src/infrastructure/persistence/serving/debate_projection.py:35-44 | a compte rendu belongs to the earliest confirmed agenda item that references it, if any |
| `DebateProjection.EarliestConfirmedIsFound` | src/infrastructure/persistence/serving/debate_projection.py:35-44 | among the items that reference it: a confirmed one whenever there is one, else a cancelled one, else one without a state, and the earliest of its kind |
| `DebateProjection.TargetIs` | src/infrastructure/persistence/serving/debate_projection.py:57-60 | the row it enriches is that of the item found, its own when there is none or it has no uid |
| `DebateProjection.AgendaRowsAre` | src/infrastructure/persistence/serving/agenda_projection.py:50-61 | the run goes over the sittings of the legislature, confirmed, cancelled, then stateless, each kind by start |
| `DebateProjection.CompteRenduRowsAre` | src/infrastructure/persistence/serving/debate_projection.py:45-56 | the run goes over the comptes rendus of the legislature by date |
| `DebateProjection.TargetsAreDistinct` | src/infrastructure/persistence/serving/debate_projection.py:57-60 | with agenda uids disjoint from compte rendu uids, no two comptes rendus target one row |
| `DebateProjection.EnrichedRowsAreCompleted` | src/infrastructure/persistence/serving/debate_projection.py:57-77 | after both runs the row of every compte rendu is completed |
| `DebateProjection.EnrichedRowsCarryTheirCompteRendu` | src/infrastructure/persistence/serving/debate_projection.py:57-77 | with disjoint uids that row has the date, title, number (0 when missing) and page of its own compte rendu |
| `DebateProjection.SlugsFollowTheWriteOnceTable` | src/infrastructure/persistence/serving/debate_projection.py:61-71 | on slugs both projections act as the write-once table of Slugs, so its laws hold for them |
| `DebateProjection.StatelessTwinIsSuffixed` | src/infrastructure/persistence/serving/agenda_projection.py:54-59 | a sitting without a state comes after a cancelled one: of two such new twins the former gets the suffix |
| `DebateProjection.CancelledTwinIsSuffixed` | src/infrastructure/persistence/serving/agenda_projection.py:54-59 | of a confirmed sitting and a cancelled twin with the same slug, both new, the cancelled one gets its uid appended |
| `AmendmentPages.AmendmentProjection.ProjectPage` | src/infrastructure/persistence/serving/amendment_projection.py:62-84 | one page keeps, skips and upserts what a filter over its rows does |
| `AmendmentPages.AmendmentProjection.ProjectAll` | src/infrastructure/persistence/serving/amendment_projection.py:41-86 | the keyset loop terminates and, for any page size, leaves the table and counters of one single-shot filter and upsert over the legislature, with processed = created + updated + skipped |
| `AmendmentPages.AmendmentProjection.Upsert` | src/infrastructure/persistence/serving/amendment_projection.py:132-144 | the multi-row statement applies every row of the page; it never meets a repeated uid |
| `AmendmentPages.PageThenRest` | src/infrastructure/persistence/serving/amendment_projection.py:46-61 | the rows above last_id are the page followed by the rows above its last id, which are strictly fewer |
| `AmendmentPages.VisitsEachOnce` | src/infrastructure/persistence/serving/amendment_projection.py:41-61 | the amendments visited are exactly those of the legislature, each once |
| `AmendmentPages.KeptRowsAreDistinct` | src/infrastructure/persistence/serving/amendment_projection.py:62-80 | a page never sends one uid twice, so its statement cannot abort |
| `AmendmentPages.EachAmendmentIsProjected` | src/infrastructure/persistence/serving/amendment_projection.py:63-84 | amendment by amendment: a kept one ends with its own columns, a skipped one changes nothing of its row, and the article link is never touched |
| `AmendmentPages.KeptAmendmentHasItsColumns` | src/infrastructure/persistence/serving/amendment_projection.py:63-80 | an amendment is kept iff its dossier has a law and, for a deputy, the deputy is known; its row has that law, the reading of (law, text), and the deputy and the group of its own uids, none when unknown |
| `AmendmentPages.EveryKeptRowIsCounted` | src/infrastructure/persistence/serving/amendment_projection.py:81-84 | every kept row is counted once, as created or updated |
| `AmendmentPages.CreatedIsGrowth` | src/infrastructure/persistence/serving/amendment_projection.py:132-144 | created is by how many rows the table grew |
| `AmendmentPages.RowAfter` | src/infrastructure/persistence/serving/amendment_projection.py:132-144 | a public row is old or written by the run, and keeps its id and article link |
| `VersionOrder.StableSortIsNavetteOrder` | src/infrastructure/persistence/serving/law_text_projection.py:60-75 | the stable sort by (date or date.max, kind) of versions listed by uid is the lexicographic order (date, kind, uid) |
| `VersionOrder.OrdersPartExactlyThere` | src/interfaces/api/routes/sync/law_text.py:12-36 | projection and route order two versions differently iff an unknown kind meets an adopted one of the same date with a larger uid, or no date meets a real 9999-12-31 in the adverse order |
| `VersionOrder.RouteIsProjectionIff` | src/interfaces/api/routes/sync/law_text.py:35-36 | on one list of versions, sorting by the key of the route gives the projected order iff no pair of them is of that kind |
| `VersionOrder.PositionsFollowNavette` | src/infrastructure/persistence/serving/law_text_projection.py:70-76 | within one numbering, a position is smaller iff the version comes first by (date, kind, uid) |
| `VersionOrder.RouteFollowsPositions` | src/interfaces/api/routes/sync/law_text.py:28-42 | within one numbering, with known kinds and no date.max, the key of the route lists versions by non-decreasing position |
| `LawTextProjection.LawTexts.GroupByDossier` | src/infrastructure/persistence/serving/law_text_projection.py:60-63 | the dictionary of lists holds each dossier once, by first appearance, with its versions in query order |
| `LawTextProjection.LawTexts.ProjectDossier` | src/infrastructure/persistence/serving/law_text_projection.py:70-88 | the versions of one dossier are sorted, numbered from 1 and upserted |
| `LawTextProjection.LawTexts.ProjectAll` | src/infrastructure/persistence/serving/law_text_projection.py:60-88 | the whole run over the grouped dossiers; versions of unknown laws are skipped and counted |
| `LawTextProjection.DossiersAreDistinct` | src/infrastructure/persistence/serving/law_text_projection.py:60-63 | grouping visits every dossier, once |
| `LawTextProjection.PositionsAreOneToN` | src/infrastructure/persistence/serving/law_text_projection.py:70-86 | the positions of one run are exactly 1..n per dossier, along (date, kind, uid), each version once |
| `LawTextProjection.EachTextIsNumbered` | src/infrastructure/persistence/serving/law_text_projection.py:65-88 | after a run every text of a projected law is in the table under its law and the reading of the index, at its place in the navette of its dossier |
| `LawTextProjection.UnselectedRowStays` | src/infrastructure/persistence/serving/law_text_projection.py:48-56 | a text of another legislature, or unavailable, keeps its row and its old position |
| `LawTextProjection.RouteAgreesIff` | src/interfaces/api/routes/sync/law_text.py:34-42 | a run leaves the stored positions of a dossier in the order of the route over all its raw texts, whatever the table held before, iff no two of its versions disagree and the run selects all of them (or there is at most one) |
| `LawTextProjection.RouteFollowsTheTable` | src/interfaces/api/routes/sync/law_text.py:28-42 | under that condition the route lists any of the texts of the dossier by strictly increasing stored position |
| `LawTextProjection.TwoLegislaturesBreakTheRoute` | src/interfaces/api/routes/sync/law_text.py:36-36 | three versions with known kinds and different dates, collected under two legislatures: after one run for each, the last is stored before the second |
| `LawTextProjection.RunAgain` | src/infrastructure/persistence/serving/law_text_projection.py:29-92 | the same run again, over a table with the rows it left, changes no row of public.law_text |
| `LawTextProjection.RunIsCounted` | src/infrastructure/persistence/serving/law_text_projection.py:60-92 | over a run created is by how many rows the table grew, and created + updated + skipped is the number of texts selected |
| `BallotLinks.Lookups.Load` | src/infrastructure/persistence/serving/ballot_projection.py:85-93 | the two indexes answer like a plain scan of the amendments they were built from |
| `BallotLinks.Lookups.AmendmentFor` | src/infrastructure/persistence/serving/ballot_projection.py:154-170 | the two loops over the indexes return what plain scans of the amendments find |
| `BallotLinks.FindScans` | src/infrastructure/persistence/serving/ballot_projection.py:154-170 | any exact match wins over every bare one; a bare number resolves only where one candidate, or one of that day, remains on a text; nothing is found iff neither exists |
| `BallotLinks.FindIsOnTheReading` | src/infrastructure/persistence/serving/ballot_projection.py:154-170 | whatever is found is an amendment on one of the texts of the reading whose number is the quoted one, whole or after its last hyphen |
| `BallotLinks.AnyOrderAgreesIff` | src/infrastructure/persistence/serving/ballot_projection.py:71-93 | every order of the amendment rows and of the set of texts finds the same amendment iff: where some text has the number whole, all amendments with that number on the texts are one; elsewhere, all texts that resolve the bare number resolve it alike |
| `BallotLinks.BareIgnoresRowOrder` | src/infrastructure/persistence/serving/ballot_projection.py:161-169 | what a text resolves a bare number to does not depend on the order of the rows |
| `BallotLinks.BareResolvedIs` | src/infrastructure/persistence/serving/ballot_projection.py:161-169 | of the candidates of a text, the only one decided on the day of the scrutin; without exactly one such, the only candidate; else none |
| `BallotLinks.CandidatesAre` | src/infrastructure/persistence/serving/ballot_projection.py:86-93 | the candidates are the amendments of the text with that number after the last hyphen, with their days, in order |
| `BallotLinks.ScoreIsBest` | src/infrastructure/persistence/serving/ballot_projection.py:176-184 | the score of a law is the largest number of leading words of its title that occur in the title of the scrutin |
| `BallotLinks.OneNumberTwiceIsUnsettled` | src/infrastructure/persistence/serving/ballot_projection.py:85-86 | two amendments of one text with one number: the row listed last is found |
| `BallotLinks.BareNumberIsAfterTheLastHyphen` | src/infrastructure/persistence/serving/ballot_projection.py:86-89 | the bare number is the non-empty part after the last hyphen |
| `BallotLinks.BareNumberIs` | src/infrastructure/persistence/serving/ballot_projection.py:86-89 | a number has a bare one iff something follows its last hyphen, and it is that |
| `BallotLinks.OpeningsAreDownwardClosed` | src/infrastructure/persistence/serving/ballot_projection.py:176-184 | if an opening of k words occurs in the scrutin title, so does every shorter one |
| `BallotLinks.MatchingWords` | src/infrastructure/persistence/serving/ballot_projection.py:176-184 | stopping at the first miss returns the largest number of leading words that occur |
| `BallotLinks.WordsJoinBack` | src/infrastructure/persistence/serving/ballot_projection.py:178-181 | joining the words of a slug gives it back |
| `BallotLinks.WordsHaveNoDash` | src/infrastructure/persistence/serving/ballot_projection.py:178-178 | no word of a split slug holds a dash |
| `BallotLinks.OccursIff` | src/infrastructure/persistence/serving/ballot_projection.py:182-182 | an opening occurs iff the title is something, the opening, something |
| `BallotLinks.LawAmongIsTheWinner` | src/infrastructure/persistence/serving/ballot_projection.py:140-152 | without or with several candidates, the law returned is the one quoted by at least four words and by strictly more than any other, and none if there is no such law, whatever the order of the set |
| `BallotLinks.LawForIff` | src/infrastructure/persistence/serving/ballot_projection.py:134-152 | a scrutin gets law d iff d is its own public dossier, or its own is not public and d is the only candidate or the one that wins |
| `BallotLinks.LawIgnoresOrder` | src/infrastructure/persistence/serving/ballot_projection.py:137-152 | the law of a scrutin does not depend on the order of the set of candidates |
| `BallotLinks.LawForIsPublic` | src/infrastructure/persistence/serving/ballot_projection.py:134-152 | any dossier returned has a public law |
| `ReadingLinks.AnyRunsKeep` | src/infrastructure/persistence/serving/law_projection.py:109-186 | over any sequence of law, amendment, law-text and ballot runs and new sittings: no law has two readings with one (chamber, number); every reading id held by an amendment, law text, ballot or debate link belongs to the law of that row; a scrutin with an amendment has a reading, and its amendment is a public one; law ids are unique; laws, readings and known links are never lost |
| `ReadingLinks.AnyRunsFromEmpty` | src/infrastructure/persistence/serving/law_projection.py:109-138 | in particular the invariant holds after any runs from an empty schema |
| `ReadingLinks.RunsFollowEachOther` | src/application/use_cases/sync_all.py:123-124 | runs in a row are one after the other |
| `ReadingLinks.RunKeeps` | src/infrastructure/persistence/serving/law_projection.py:35-90 | each single run keeps it |
| `ReadingLinks.LawKeeps` | src/infrastructure/persistence/serving/law_projection.py:83-86 | projecting one law keeps it |
| `ReadingLinks.AmendmentsKeep` | src/infrastructure/persistence/serving/amendment_projection.py:92-130 | an amendment run keeps it |
| `ReadingLinks.TextRunKeeps` | src/infrastructure/persistence/serving/law_text_projection.py:94-130 | a law-text run keeps it |
| `ReadingLinks.BallotsKeep` | src/infrastructure/persistence/serving/ballot_projection.py:224-256 | a ballot run keeps it and changes ballots only |
| `ReadingLinks.HitIsPublic` | src/infrastructure/persistence/serving/ballot_projection.py:71-83 | the amendment found for a scrutin is a row of public.amendment, and none is found without a reading |
| `ReadingLinks.IndexAgreesWithLookup` | src/infrastructure/persistence/serving/amendment_projection.py:99-112 | with unique readings, the last match of the prebuilt index and the first match of the lookup are the same row |
| `ReadingProjections.PublicSchema.UpsertReadings` | src/infrastructure/persistence/serving/law_projection.py:109-138 | lookup, insert or update of each reading stage in order, and the dictionary stage uid to reading id |
| `ReadingProjections.PublicSchema.LinkDebates` | src/infrastructure/persistence/serving/law_projection.py:140-186 | sittings of the stages, then of the agenda, coalesced into debate_law; the statement never meets a debate twice |
| `ReadingProjections.PublicSchema.ProjectLaw` | src/infrastructure/persistence/serving/law_projection.py:83-88 | one dossier in one transaction keeps the invariant |
| `ReadingProjections.PublicSchema.ProjectLaws` | src/infrastructure/persistence/serving/law_projection.py:35-90 | the run over all dossiers keeps the invariant and counts each once |
| `ReadingProjections.PublicSchema.AmendmentIndex` | src/infrastructure/persistence/serving/amendment_projection.py:92-130 | the loop builds the specified index |
| `ReadingProjections.PublicSchema.TextIndex` | src/infrastructure/persistence/serving/law_text_projection.py:94-130 | the loop builds the specified index, absent readings included |
| `ReadingProjections.PublicSchema.BallotIndex` | src/infrastructure/persistence/serving/ballot_projection.py:95-130 | the loop builds the specified index, readings with the texts of their stage |
| `ReadingProjections.PublicSchema.ProjectBallot` | src/infrastructure/persistence/serving/ballot_projection.py:224-256 | one scrutin: its law, the reading and texts of the index, and the amendment found on those texts |
| `ReadingProjections.PublicSchema.ProjectAmendments` | src/infrastructure/persistence/serving/amendment_projection.py:30-86 | index, then keyset pages, equal the single-shot run of the invariant |
| `ReadingProjections.PublicSchema.ProjectTexts` | src/infrastructure/persistence/serving/law_text_projection.py:29-92 | index, then grouped versions, equal the run of the invariant |
| `ReadingProjections.PublicSchema.ProjectBallots` | src/infrastructure/persistence/serving/ballot_projection.py:195-256 | index, then one ballot after the other, equal the run of the invariant; ballots without a known sitting are skipped |
| `ReadingProjections.LinkRowsAreDistinct` | src/infrastructure/persistence/serving/law_projection.py:160-186 | the rows of the link statement have distinct debates, so it cannot abort |
| `ReadingProjections.LinkRowIsSent` | src/infrastructure/persistence/serving/law_projection.py:169-173 | each sitting of the dictionary that public.debate knows is sent, with its reading |
| `ReadingProjections.SecondRunAddsNoReading` | src/infrastructure/persistence/serving/law_projection.py:112-137 | projecting the readings of a law again inserts none and moves no id, although the table has no unique key |
| `SittingLinks.SittingIsLinkedToItsReading` | src/infrastructure/persistence/serving/law_projection.py:109-186 | a sitting of a reading stage that is in public.debate ends linked to the law with the row of exactly the chamber and number of the last stage that names it, whatever was stored before |
| `SittingLinks.AgendaSittingIsLinked` | src/infrastructure/persistence/serving/law_projection.py:147-156 | a sitting whose agenda lists the dossier is linked even if no stage names it |
| `SittingLinks.EachSittingIsLinked` | src/infrastructure/persistence/serving/law_projection.py:169-186 | a link takes the reading of its sitting when one is known and otherwise keeps what it had |
| `SittingLinks.LinksOfOtherLawsStay` | src/infrastructure/persistence/serving/law_projection.py:169-186 | projecting a law moves no link of another law |
| `SittingLinks.IdsAre` | src/infrastructure/persistence/serving/law_projection.py:113-138 | the dictionary of ids knows a stage uid iff a stage with it is a reading, and sends it to the row of that chamber and number |
| `SittingLinks.StageHasItsReading` | src/infrastructure/persistence/serving/law_projection.py:113-138 | with unique stage uids, every reading stage is mapped to the row of its own chamber and number |
| `SittingLinks.StagesShareARowIff` | src/infrastructure/persistence/serving/law_projection.py:112-137 | two reading stages of a law end in one row of public.law_reading iff they have one code, or are the first and the single reading of one chamber |
| `SittingLinks.LastStageNames` | src/infrastructure/persistence/serving/law_projection.py:143-146 | a sitting named by several stages belongs to the last of them |
| `SittingLinks.AgendaAdds` | src/infrastructure/persistence/serving/law_projection.py:147-156 | the agenda adds the sittings that no stage names, without a reading, and moves none |
| `ReadingIndexes.AmendmentIndexIs` | src/infrastructure/persistence/serving/amendment_projection.py:92-130 | the index knows a text of a law iff some stage with a row has it as deposited or commission text, and answers with such a row |
| `ReadingIndexes.AmendmentIndexAnyOrderIff` | src/infrastructure/persistence/serving/amendment_projection.py:113-130 | the query has no ORDER BY: all listings of the stages give one index iff stages with one text of one law have one reading |
| `ReadingIndexes.AmendmentHasItsReading` | src/infrastructure/persistence/serving/amendment_projection.py:63-80 | a kept amendment ends with its own law, and with a reading iff a stage of that law has its text, the row of such a stage |
| `ReadingIndexes.TextIndexIs` | src/infrastructure/persistence/serving/law_text_projection.py:94-130 | the last stage that has a text, adopted text included, decides, even to answer that its reading is absent |
| `ReadingIndexes.TextIndexAnyOrderIff` | src/infrastructure/persistence/serving/law_text_projection.py:110-130 | all listings of the stages give one index iff stages with one text of one dossier have one reading, absent ones included |
| `ReadingIndexes.BallotIndexIs` | src/infrastructure/persistence/serving/ballot_projection.py:121-130 | a sitting of a dossier has a reading iff a stage with a row lists it, the row and the texts of such a stage |
| `ReadingIndexes.BallotIndexAnyOrderIff` | src/infrastructure/persistence/serving/ballot_projection.py:109-130 | all listings of the stages give one index iff stages that name one sitting of one dossier have one reading and the same texts |
| `ReadingIndexes.TextesOfIs` | src/infrastructure/persistence/serving/ballot_projection.py:128-128 | the texts kept of a stage are its deposited and commission texts |
| `ReadingIndexes.AmendmentIsFoundIff` | src/infrastructure/persistence/serving/ballot_projection.py:154-170 | a scrutin has an amendment iff it quotes a number and, on the texts of its stage, some public amendment has it whole, and then it is one of those, or some text resolves it as a bare one |
| `ReadingIndexes.LawOfIff` | src/infrastructure/persistence/serving/ballot_projection.py:134-152 | so on the dossiers of the agenda that are public, in whatever order the set is iterated, with the score of at least four words spelled out |
| `ReadingIndexes.BallotHasItsReading` | src/infrastructure/persistence/serving/ballot_projection.py:212-256 | a scrutin whose sitting is known ends with its sitting, a law iff one is its law, the reading of a stage of that law which sat that day, iff there is one, and at most an amendment on a text of that same stage, with the number quoted |
| `LastWins.AnyOrderIff` | src/infrastructure/persistence/serving/law_projection.py:56-65 | rows listed by a rank: every listing gives one key the same answer iff the rows that may come last for it answer alike |
| `LastWins.AnyListingIff` | src/infrastructure/persistence/serving/amendment_projection.py:113-130 | rows listed in no order: all listings fill one dictionary iff rows that answer one key answer alike |
| `LawRunsAgain.ReadingCarriesItsLastStage` | src/infrastructure/persistence/serving/law_projection.py:109-138 | after a law is projected, the row of a reading carries what its last stage says |
| `LawRunsAgain.LawLinkIs` | src/infrastructure/persistence/serving/law_projection.py:140-186 | projecting a dossier links its law to exactly the sittings it mentions that public.debate knows, each with the reading of the last stage naming it, else with what the link had |
| `LawRunsAgain.RunLinksAre` | src/infrastructure/persistence/serving/law_projection.py:35-90 | the same after a run over any dossiers: the last one that gives a reading decides |
| `LawRunsAgain.ReadingsAgain` | src/infrastructure/persistence/serving/law_projection.py:109-138 | a second law run inserts no reading, moves no identity and leaves every content, although rows are overwritten on the way |
| `LawRunsAgain.LawsAgain` | src/infrastructure/persistence/serving/law_projection.py:35-90 | a second law run over dossiers that say the same changes no law, reading or link, whatever else ran in between |
| `LawRunsAgain.LawSettledIff` | src/infrastructure/persistence/serving/law_projection.py:56-65 | ORDER BY position leaves ties: a law projected twice, in whatever listings the queries return, is as projected once, for every state, iff stages of one position that come last for a reading have one content and those that come last for a sitting have one reading |
| `PublicRunsAgain.RunAgain` | README.md:75-77 | any law, amendment, law-text or ballot run, done again on a state where its inputs and its own table are as it left them, changes no modelled table of public when the raw data answer its questions as before |
| `PublicRunsAgain.RunTwiceIsOnce` | README.md:75-77 | so done twice over the same listing of the raw data it leaves every modelled table as done once: same keys, ids, contents and links |
| `PublicRunsAgain.RelistedRunIsIdle` | README.md:75-77 | so also in whatever order its queries list the rows and its sets are iterated, when the rows that may come last answer alike |
| `PublicRunsAgain.SharedTextMovesWithTheListing` | src/infrastructure/persistence/serving/law_text_projection.py:110-130 | a dossier on which they do not: two stages with one text; the second run, listing them the other way round, stores the text under the other reading |
| `PublicRunsAgain.AmendmentsAgain` | src/infrastructure/persistence/serving/amendment_projection.py:30-86 | a second amendment run with the same index changes no row and creates none |
| `PublicRunsAgain.TextsAgain` | src/infrastructure/persistence/serving/law_text_projection.py:29-92 | a second law-text run with the same index changes no row |
| `PublicRunsAgain.BallotsAgain` | src/infrastructure/persistence/serving/ballot_projection.py:195-256 | a second ballot run that sends the same rows changes no sitting, law, reading or amendment of a scrutin |
| `SyncAgain.Projections.Execute` | src/application/use_cases/sync_all.py:65-73 | the projections of a sync run in the order laws, agenda, comptes rendus, amendments, law texts, scrutins |
| `SyncAgain.SyncKeeps` | src/application/use_cases/sync_all.py:123-124 | a whole sync keeps the cross-table invariant, unique debate ids and links of existing debates |
| `SyncAgain.AnySyncsFromNothing` | src/application/use_cases/sync_all.py:75-127 | so any number of syncs from an empty schema leaves a sound one |
| `SyncAgain.OnlyLinksMove` | src/application/use_cases/sync_all.py:123-124 | a second sync over the same raw data changes nothing but links of sittings to laws |
| `SyncAgain.SyncTwiceIff` | src/application/use_cases/sync_all.py:65-73 | a sync done twice leaves every table as done once iff no law of it mentions a sitting that the sync itself added to public.debate |
| `SyncAgain.NewSittingIsLinkedLate` | src/application/use_cases/sync_all.py:65-73 | a law on the agenda of a sitting that public.debate did not know is not linked to it by the first sync, and is by the second |
| `SyncAgain.ThirdSyncIsIdle` | src/application/use_cases/sync_all.py:123-124 | a third sync always leaves every table as the second did |
| `SyncAgain.RelistedSyncIsTheSame` | src/application/use_cases/sync_all.py:123-124 | all of this whatever order the queries list the rows in, when what may come last answers alike |
| `LawRows.PublicLaws.UpsertLaw` | src/infrastructure/persistence/serving/law_projection.py:92-107 | one law: a slug made unique for a new row only, every other column written again |
| `LawRows.PublicLaws.ProjectAll` | src/infrastructure/persistence/serving/law_projection.py:35-90 | the run over the dossiers, those that are not laws skipped; each is counted once |
| `LawRows.SlugsFollowTheWriteOnceTable` | src/infrastructure/persistence/serving/law_projection.py:96-107 | on slugs the law projection acts as the write-once table of Slugs, so its laws hold for public.law |
| `LawRows.IdsAreThoseOfTheReadings` | src/infrastructure/persistence/serving/law_projection.py:92-107 | the ids of these rows are the law ids of ReadingLinks |
| `LawRows.RowAfter` | src/infrastructure/persistence/serving/law_projection.py:92-107 | a row carries the columns of the last dossier with its uid, and keeps its id and slug |
| `LawRows.RunAgain` | src/infrastructure/persistence/serving/law_projection.py:35-90 | a second run over dossiers with the same columns changes no row |
| `LawRows.StatusAnyOrderIff` | src/domain/entities/law.py:122-136 | every order of stages of one position gives one status iff the law is promulgated or withdrawn, or the readings that may be the last decided count alike |
| `LawRows.DepositAnyOrderIff` | src/domain/entities/law.py:112-115 | every order of stages of one position gives one deposit date iff the stages that may start first give one |
| `LawRows.RelistedLawHasItsColumns` | src/infrastructure/persistence/serving/mappers/law_mapper.py:57-70 | under both conditions a law read in another listing writes the same columns |
| `ReadingCodes.ReadingCodesAgree` | src/infrastructure/persistence/serving/mappers/law_mapper.py:15-27 | the stage codes with a row in public.law_reading are exactly the reading codes of the entity |
| `ReadingCodes.ReadingIsChamberAndNumber` | src/infrastructure/persistence/serving/mappers/law_mapper.py:15-27 | AN… is a reading of the Assemblée, SN… of the Sénat, CMP its own; in both chambers the number grows from first or single to second reading, NLEC, LDEF, as 1, 2, 3, 4 |
| `ReadingCodes.SameReadingIff` | src/infrastructure/persistence/serving/mappers/law_mapper.py:15-27 | two reading codes have one (chamber, number) iff they are equal, AN1 and ANLUNI, or SN1 and SNLUNI |
| `LawEntities.NumberIsTheLeaders` | src/domain/entities/law.py:101-110 | the number is that of a numbered non-commission projet or proposition which no other precedes by (Assemblée first, date, number), and none iff there is no such text |
| `LawEntities.NumberIgnoresOrder` | src/domain/entities/law.py:101-110 | the number does not depend on the order or repetition of the texts |
| `LawEntities.NumberedIff` | src/domain/entities/law_texte.py:44-60 | the texts that may give it: projets and propositions with a number, whose uid has no BTC in it |
| `LawEntities.LeaderIs` | src/domain/entities/law.py:101-110 | the one that does: of the Assemblée if any is, then the earliest, then the smallest number |
| `LawEntities.StatusIs` | src/domain/entities/law.py:117-136 | each of the six statuses, exactly: promulgation wins, then withdrawal, then the last decided reading if rejected or definitive, then whether any stage was examined |
| `LawEntities.ReadingShows` | src/infrastructure/persistence/serving/mappers/law_mapper.py:72-83 | rejected for the two codes of rejection, adopted for any other code, else in discussion iff examined; completed iff concluded, else ongoing iff examined |
| `LawEntities.ReadingRowsAre` | src/infrastructure/persistence/serving/mappers/law_mapper.py:86-99 | one row per reading stage, in order, with its own chamber, number, outcome, calendar and dates |
| `LawEntities.LawTypeIs` | src/domain/entities/law.py:42-93 | which procedures are bills and which propositions; organic and constitutional texts by their title, letter case aside |
| `DossierParser.WalkIsByPaths` | src/infrastructure/adapters/an_law_adapter.py:45-49 | the acts visited are those at the paths of child positions of the forest, at any depth, each once, an act before what it holds and then by position |
| `DossierParser.StageReadsItsActs` | src/infrastructure/adapters/an_law_adapter.py:215-257 | deposited, commission and adopted texts, outcome code, label and date are what the act at the first path that should give them says, None without such an act |
| `DossierParser.StageSitsAtItsActs` | src/infrastructure/adapters/an_law_adapter.py:253-257 | the sittings are those of the séance acts, in the order of their paths |
| `DossierParser.StageIsItsActe` | src/infrastructure/adapters/an_law_adapter.py:239-244 | uid, organe, order, and the defaults of code and wording |
| `DossierParser.RolesByEnding` | src/infrastructure/adapters/an_law_adapter.py:29-29 | what an act counts as, by the ending of its code: the report of the second commission is a report but no examination, the promulgation an examination and a decision |
| `DossierParser.AdoptedTexteIs` | src/infrastructure/adapters/an_law_adapter.py:229-238 | the adopted text is that of the first BTA of the decision |
| `DossierParser.NoAdoptedTexte` | src/infrastructure/adapters/an_law_adapter.py:229-238 | without a BTA there is no adopted text |
| `DossierParser.StageDatesAreEarliest` | src/infrastructure/adapters/an_law_adapter.py:204-214 | start and examination are the earliest dates at the paths below, of all acts and of the examining ones (promulgation included) |
| `DossierParser.StageDatesInOrder` | src/infrastructure/adapters/an_law_adapter.py:202-258 | for every tree of acts, concluded implies examined, examined implies started, with started ≤ examined ≤ concluded |
| `DossierParser.EveryStageInOrder` | src/infrastructure/adapters/an_law_adapter.py:149-153 | so it is for every stage of a parsed dossier |
| `DossierParser.ActIsAStage` | src/infrastructure/adapters/an_law_adapter.py:149-153 | every top-level act with a uid is a stage, at its rank among all of them |
| `DossierParser.StageIsAnAct` | src/infrastructure/adapters/an_law_adapter.py:149-153 | and every stage is such an act |
| `DossierParser.DossierReadsItsFields` | src/infrastructure/adapters/an_law_adapter.py:140-170 | a dossier is parsed iff it has a uid; it is withdrawn iff some act at any depth says so; its other fields and their defaults |
| `DossierParser.PositionsGrow` | src/infrastructure/adapters/an_law_adapter.py:149-153 | stage positions strictly increase, with holes where an act has no uid |
| `DossierParser.ConcludedLawIsNotSubmitted` | src/domain/entities/law.py:134-136 | a parsed dossier with any concluded stage is never submitted |
| `DossierParser.OutcomeMeetsCalendarIff` | src/infrastructure/persistence/serving/mappers/law_mapper.py:72-83 | a parsed reading shows an outcome iff its calendar is completed, exactly when the first deciding act has both an outcome code and a date, or neither, or is missing |
| `DossierParser.OutcomeYetScheduledIff` | src/infrastructure/persistence/serving/mappers/law_mapper.py:72-83 | an outcome with a scheduled calendar: exactly when the deciding act has a code and no examining act has a date |
| `DossierParser.OpenReadingCalendar` | src/infrastructure/persistence/serving/mappers/law_mapper.py:72-83 | without an outcome: submitted is scheduled, and in discussion is completed iff the decision is dated, else ongoing |
| `DossierParser.AdoptedYetScheduled` | src/infrastructure/persistence/serving/mappers/law_mapper.py:72-83 | a stage whose decision has a code and no readable date is adopted and scheduled |
| `DossierParser.CompletedYetInDiscussion` | src/infrastructure/persistence/serving/mappers/law_mapper.py:72-83 | a stage whose decision has a date and no code is in discussion and completed |
| `LawRoundTrip.StagesRoundTripIffNoStale` | src/infrastructure/persistence/raw/law_repository.py:23-35 | the stages read back are those saved iff the tables held no other stage of that dossier: nothing is deleted, so a stage that the source dropped stays |
| `LawRoundTrip.TextesComeBack` | src/infrastructure/persistence/raw/mappers/law_mapper.py:43-56 | on fresh rows the documents come back, as a bag |
| `LawRoundTrip.ParsedDossierRoundTrips` | src/infrastructure/persistence/serving/mappers/law_mapper.py:30-46 | a parsed dossier saved on fresh rows and rebuilt is itself again, but for s3_key and the order of its texts, whatever order the database lists them in |
| `LawRoundTrip.ProjectionIsOfTheParsedLaw` | src/infrastructure/persistence/serving/mappers/law_mapper.py:57-99 | hence type, number, status, deposit date and reading rows of the projection are those of the parsed entity |

## Left out

- HTTP, retries, object storage, archives, ZIP reading, the archive memo, the CLI, dispatch, settings and logging: plumbing.
- XML, HTML and JSON parsing, date parsing and `_clean`: the model starts from parsed trees and cleaned paragraphs.
- Paragraphs of a debate point, `texte_refs`, speaker types and the header of a compte rendu: opaque content of a point.
- Unicode: ASCII folding is an arbitrary function which is the identity on ASCII; digits and letter case are ASCII only; uids sort by code point rather than by database collation.
- Ties of SQL orders: a run takes the rows as the database listed them that time; `RelistedRun` and `RelistedSync` say what another run may find.
- Foreign keys, column lengths and NOT NULL checks of the database, and rows of `public` whose external_id is NULL.
- Concurrency and isolation: steps run one after the other in one process.
- Full column lists: one opaque content per table, besides the columns a property needs.
- The slug of deputies: the laws of the write-once table are proved in `Slugs` and tied to `public.debate` and `public.law`.
- The projection of deputies, the votes of a scrutin, the write-back to raw.ballot, articles of `public.law_text` and the link from amendments to articles: loops over lookups that add easy members only.
- Enum translation maps and display names: settled by reading their branches.
- The route of article versions beyond its ordering: the amendments it attaches to each version.
- Timestamps of a report, and the rounding of its failure rate: a quotient of reals.
- RawStore.UnnamedColumnsSurvive: about rows that already exist; the defaults of a fresh row are not modelled, an unwritten column reads as NULL.
- RawRepositories.RawRepository.SaveAggregate: takes the mapped rows of the children, so the mappers of ballots, votes and agenda points are left out.
- SyncAgain.SyncTwiceIff: both syncs at one moment, since the status of a sitting depends on the clock; rows of public.law are apart, in `LawRows.RunAgain`.
- LawTextProjection.RouteAgreesIff: about the table right after a run, over the raw rows and deposit dates that run read; a later change of the raw tables needs another run.
- DossierParser.StageReadsItsActs: an act whose code is null in the source, on which the code raises, is left out.
- LawEntities.NumberIsTheLeaders: the fields of a law are taken as already validated by the entity.
