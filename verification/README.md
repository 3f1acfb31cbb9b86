# FF-net pipeline: build, converge, merge

The pipeline keeps four tables: raw intercept reports (the source), nets (`ff_net_building`, one row per
net), an append-only history of processed reports, and a ledger of net pairs proposed for merging.  Three
kinds of call change them: a build folds every unprocessed report into a net or creates one, a detection
records new merge candidates, and a decision approves or rejects one candidate.  The project models the
tables as maps from their primary keys, each call as one atomic step, and proves what holds after any
interleaving of source changes, builds, detections and decisions.

## Layout

| file | what is in it |
|---|---|
| `Records.dfy`, `Folding.dfy` | a report, its band and signature, one fold, and what any sequence of folds leaves |
| `NetBuilding.dfy`, `Passes.dfy` | routing, the working table changed in place, the pass over a batch, and what the pass keeps |
| `IdText.dfy`, `Hierarchy.dfy` | the text form of ids, the one-record-per-station pass, and the nested grouping |
| `NetMerging.dfy` | the three tests and the double loop that finds candidate pairs |
| `Grouping.dfy` | labels against chains of approved pairs, independent of the tables |
| `Pipeline.dfy` | the tables, and build, detect and decide as functions from tables to tables |
| `Store.dfy` | the same as an object whose methods change the tables, each proved against those functions |
| `Builds.dfy`, `Decisions.dfy` | what one build and one decision do to the net table, the groups and the ledger |
| `Machine.dfy`, `RowLimit.dfy` | runs from empty tables and what every reachable state satisfies |
| `Convergence.dfy`, `Recounts.dfy` | repeated builds over one source: when they settle, and what they add to the counts |
| `Revisions.dfy`, `HistoryRows.dfy` | which reports the guard tells apart, and what a history row says of its report |
| `TableReads.dfy` | the orders in which the source can be read, and what they say of a re-run beforehand |
| `Runs.dfy`, `SharedId.dfy`, `Crowds.dfy` | runs built step by step, and what particular runs from empty tables reach |
| `Timestamps.dfy`, `RowMapping.dfy` | reading and printing times, and the two row mappings |

A full read returns the nets in no promised order, and the source one FF_ID after another, the rows of each
latest first and the FF_IDs in no promised order.  Every build and approval therefore takes its read orders
as arguments.  A result about every order holds for any order at all, these included; where a result depends
on which orders are possible, or names one, it is an order the source can be read in (`TableReads.TableOrder`).
Timestamps taken from the clock are arguments too.  `World` in `Machine.dfy` carries, next to the tables, three things that the
code does not store and that the results speak of: each net's id at creation, every report ever folded into
it, and the number of approvals that merged two groups.

## Results

- **Groups.**  In every state reachable from empty tables two nets share `my_net_id` exactly when a chain of
  approved pairs joins them.  The shared id is the lowest creation id of the component, so the order of the
  approvals does not matter and the result is that of batch connected components.  Creation ids may repeat,
  because an absorbed id is handed out again (`Crowds.BirthIdsRepeat`); the labels of live groups never do.
- **Row limit.**  This needs each absorbed group to fit the limit of 10000 rows on the read that fetches it.
  An approval across two groups keeps the labelling exact if and only if the absorbed group fits.  For
  every size past the limit a run from empty tables reaches a group of that size and splits it.
- **Convergence.**  On a fixed source and with a fresh timestamp, a build lowers the number of unprocessed
  reports by exactly the number of distinct (net, FF_ID) pairs it logged, because reports that share one
  overwrite each other in the history.  Repeated builds settle in at most as many builds as there were
  unprocessed reports.
- **Idempotence.**  The documentation promises that a re-run is a no-op.  For one read order it is exactly
  when no two reports processed by the first run went to one net with one FF_ID.  What can be checked before
  the run: it is in every order in which the source can be read if and only if no two unprocessed rows have
  one FF_ID at one named station, on empty tables and on any tables without a net that could take one of two
  such rows.  Nets that can take them may keep the two apart for good.  When all unprocessed rows have one
  FF_ID, a dry run over them decides it on any tables, the same for every order.
- **Revised rows.**  A build processes a source row exactly when no report in the history agrees with it in
  FF_ID, FTI, LTI, NTI and the frequency to six decimals.  A row revised since is therefore processed when one
  of FTI, NTI and that frequency changed, unless it was restored to a version that the history holds.
- **Double counts.**  Each build adds the NTI of the rows it found unprocessed.  When those are positive,
  repeated builds count every intercept once exactly when the first of them put no two reports with one FF_ID
  into one net, and too many otherwise; two sightings of one emitter at one station count as three.
- **In the cells.**  The functions that these results speak through are tied to the cells they read: the band
  test to frequencies in MHz and bandwidths in kHz, the merge test to days of 86400 seconds, to bandwidths and
  positions, an alert to the cells of its two nets and to its numbers, a decision to the condition of each
  error and to its answer, and each of the six time formats to the exact texts it accepts.
- **Folds.**  Over all runs a net's FTI is the earliest, its LTI the latest and its NTI the sum of every
  report ever folded into it, in any order; every other cell is that of the last leading report with a value.
- **Routing.**  Once a report has been routed, a later report of its station whose band meets its band never
  starts a new net in that run.  The documentation says of a shared station and FF_ID that they always mean
  the same emitter; the code does not.  A report collapses exactly when a net of its station is met by its
  band or shows its FF_ID, that is, the last leading fold with an FF_ID had this one.  It goes to one such net
  exactly when no other has a later LTI, nor the same LTI and an earlier place in the table.  So a shared
  FF_ID leads elsewhere in two ways, each reached by a run of three reports from empty tables: another FF_ID
  took the net over and the band lies elsewhere, or a net that the band meets has the later sighting.  In
  the first case the report may even meet the band of the earlier one, for the band observed in one run is
  forgotten in the next (`SharedId.ForgottenBandExample`).

Where the code and its documentation differ the model follows the code.  The observed band of a net is not
stored: a net read from the table matches on its stored record until the first fold of the run, and from
then on only on the bands folded in that run (`Passes.MatchingBand`).

## Model

| member | source | states |
|---|---|---|
| `Folding.FoldAllSummary` | backend/apps/ff_net/submodules/net_building.py:410-447 | after any sequence of folds FTI is the earliest date present, LTI the latest, and NTI (null as 0) the sum |
| `Folding.FoldOrderIrrelevant` | backend/apps/ff_net/submodules/net_building.py:410-447 | those three do not depend on the order of the folds |
| `Folding.NullCountDependsOnOrder` | backend/apps/ff_net/submodules/net_building.py:442-447 | whether a zero NTI shows as null or 0 does depend on the order, which is why null must be read as 0 above |
| `Folding.FoldAllCell` | backend/apps/ff_net/submodules/net_building.py:396-408 | each other cell is that of the last leading fold with a value there, null exactly when none had one |
| `Folding.FullRecordIsLastLatest` | backend/apps/ff_net/submodules/net_building.py:396-408 | with all cells present the record shown is the last report that attains the latest LTI |
| `Folding.FoldAllResumes` | backend/apps/ff_net/submodules/net_building.py:387-450 | of folds alone: folding on from the result of earlier folds gives the result of all of them in one go |
| `Folding.HullIsExact` | backend/apps/ff_net/submodules/net_building.py:422-440 | the tracked band is exactly the span of the bands folded in: both edges attained, every band inside |
| `NetBuilding.NextNetId` | backend/apps/ff_net/submodules/net_building.py:373-377 | above every id in use by exactly one, or 100001 on an empty table |
| `NetBuilding.NextMyNet` | backend/apps/ff_net/submodules/net_building.py:380-384 | above every live label by exactly one, or 1 on an empty table |
| `NetBuilding.Route` | backend/apps/ff_net/submodules/net_building.py:498-529 | the match with the latest LTI, the first such on a tie; none exactly when nothing matches |
| `NetBuilding.Members.CollapseInto` | backend/apps/ff_net/submodules/net_building.py:387-450 | only the row folded into changes, to the fold of its record and the widening of its band, and its net and FF_ID are returned |
| `NetBuilding.Members.AssignNet` | backend/apps/ff_net/submodules/net_building.py:484-533 | collapses exactly when some row matches, into the routed row; otherwise changes nothing and hands out fresh ids |
| `NetBuilding.BandTestIff` | backend/apps/ff_net/submodules/net_building.py:453-481 | in cells: a report meets a net loaded from the table if and only if twice the distance of the frequencies, in kHz, is at most the sum of the bandwidths and twice the slack; `None` is width zero, NaN meets nothing |
| `Builds.LoadedCollapsesIff` | backend/apps/ff_net/submodules/net_building.py:498-533 | in cells, on freshly loaded tables: a report collapses if and only if a net of its named station has its FF_ID or meets it; it goes to the one with the latest LTI, a missing one the earliest, the first read on a tie; otherwise it gets an unused id |
| `Passes.PassKeepsTrace` | backend/apps/ff_net/submodules/net_building_service.py:259-291 | after a batch every row is the fold of what it held and the reports logged to it, its tracked band is their exact span, ids only grow, and a net without a station takes one report |
| `Passes.MatchingBand` | backend/apps/ff_net/submodules/net_building.py:466-481 | the band a net matches on: the span of this run's folds, or its stored record's own band if there were none |
| `Passes.TrackedBandIff` | backend/apps/ff_net/submodules/net_building.py:517-521 | in cells: a net that took reports in this run is met if and only if the report is not above all of them and not below all of them by more than the half bandwidths and the slack |
| `Passes.OverlapNeverSplits` | backend/apps/ff_net/submodules/net_building.py:517-521 | after a report of a station has been routed, one whose band meets its band collapses |
| `Passes.LaterOverlapCollapses` | backend/apps/ff_net/submodules/net_building_service.py:259-291 | the same for any two entries of one batch |
| `Passes.CollapsesIff` | backend/apps/ff_net/submodules/net_building.py:498-533 | a report collapses if and only if some net of its named station is met by its band or shows its FF_ID, shown by the last leading fold that had one |
| `Passes.GoesToNetIff` | backend/apps/ff_net/PIPELINE_REFERENCE.md:129 | exactly when a shared station and FF_ID, or anything else, leads to a given net: it shows the FF_ID or is met by the band, and no other such net has a later LTI, or the same one and an earlier place |
| `SharedId.TakenOverIdSplits` | backend/apps/ff_net/PIPELINE_REFERENCE.md:129 | the documented rule fails on a run from empty tables, three reports and three builds in any read order: another FF_ID has taken the net over and the third report starts a net of its own |
| `SharedId.OutbidIdMoves` | backend/apps/ff_net/submodules/net_building.py:523-529 | it fails also while the first net shows the FF_ID: the third report is folded into the net its band meets, which has the later sighting |
| `SharedId.SharedIdExamples` | backend/apps/ff_net/PIPELINE_REFERENCE.md:481-486 | concrete sightings for each of the two |
| `SharedId.ForgottenBandExample` | backend/apps/ff_net/PIPELINE_REFERENCE.md:487-493 | the first of the two happens also to a report that meets the band of the earlier one: across runs a met band does not keep reports together |
| `Passes.PassConserves` | backend/apps/ff_net/submodules/net_building_service.py:259-291 | new, collapsed and skipped add up to the batch, rows grow by the new ones, NTI by that of the processed ones |
| `Builds.BuildConserves` | backend/apps/ff_net/submodules/net_building_service.py:226-303 | the same between the stored tables before and after a build |
| `Builds.BuildGrowsFresh` | backend/apps/ff_net/submodules/net_building.py:380-384 | a build keeps every net and label, and each new net has a label that no other net carries, even a reused one |
| `Builds.BuildTracesNet` | backend/apps/ff_net/submodules/net_building_service.py:259-297 | each stored record after a build is the fold of the stored record before and the reports logged to that net |
| `IdText.IdsRoundTrip` | backend/apps/ff_net/submodules/net_building.py:545-550 | both text forms of any id, of any length and sign, read back as that id |
| `IdText.IdTexts` | backend/apps/ff_net/submodules/net_building.py:545-550 | a label has at least five digits, padded with zeros to five and no further, a net id none, and the digits spell the id |
| `Hierarchy.DedupRdfsPerNet` | backend/apps/ff_net/submodules/net_building.py:536-542 | one row per net and station, with no row of that net and station later, whatever the sort does with ties |
| `Hierarchy.DedupKeepsAll` | backend/apps/ff_net/submodules/net_building.py:536-542 | with one row per net it keeps every row |
| `Hierarchy.BuildHierarchical` | backend/apps/ff_net/submodules/net_building.py:553-583 | one row for each (my_net_id, net_id), the latest, strictly ascending, ids as text |
| `Hierarchy.HierarchyKeepsAll` | backend/apps/ff_net/submodules/net_building.py:553-583 | with one row per net exactly the rows of the table are written out |
| `NetMerging.SameNetSymmetric` | backend/apps/ff_net/submodules/net_merging.py:104-165 | the three tests, their failure on a null cell, and the reasons shown do not depend on which net comes first |
| `NetMerging.SameNetIff` | backend/apps/ff_net/submodules/net_merging.py:89-148 | in cells, under any settings: the frequency test on a fixed tolerance, fixed half widths or the two bandwidths, the time test on days of 86400 s, the distance test on four positions, each when it is on |
| `NetMerging.SameNetDefaultIff` | backend/apps/ff_net/submodules/net_merging.py:46-60 | under the default settings two nets pass if and only if their bands meet, both were last seen on the same day, and they are at most 100 m apart |
| `NetMerging.ReasonsShown` | backend/apps/ff_net/submodules/net_merging.py:150-165 | in cells: the frequency gap and tolerance to four decimals, the time gap in seconds and the distance to one, each nearest with ties to even and only where its test is on |
| `NetMerging.ProposePairs` | backend/apps/ff_net/submodules/net_merging.py:170-196 | lists every cross-group pair that passes, nothing else, none twice, lower id first; raises exactly when such a pair has a null it needs |
| `Grouping.SharedIffConnected` | backend/apps/ff_net/MERGE_PIPELINE_REFERENCE.md:314-325 | under the grouping invariant a shared label is a chain of approved pairs, and conversely |
| `Grouping.LabelIsBatchLabel` | backend/apps/ff_net/MERGE_PIPELINE_REFERENCE.md:318-325 | and the label is the lowest creation id of the connected component |
| `Grouping.LabelsDetermined` | backend/apps/ff_net/MERGE_PIPELINE_REFERENCE.md:318-325 | creation ids and approved pairs determine all labels |
| `Grouping.JoinKeepsGrouped` | backend/apps/ff_net/submodules/net_merging_service.py:170-181 | relabelling the whole higher group to the lower label keeps the invariant when the pair is approved |
| `Grouping.EdgeKeepsGrouped` | backend/apps/ff_net/submodules/net_merging_service.py:161-168 | so does approving a pair inside one group without moving anything |
| `Grouping.GrowKeepsGrouped` | backend/apps/ff_net/submodules/net_building.py:380-384 | so do new nets with fresh labels |
| `Decisions.FindGroupIsWhole` | backend/apps/ff_net/repository.py:61-81 | the limited read returns only the group, as many rows as fit, and all of it exactly when it fits |
| `Decisions.DecideLabels` | backend/apps/ff_net/submodules/net_merging_service.py:154-187 | records never change; labels change only in an approval across groups, where an absorbed group within the row limit takes the lower label whole and `nets_moved` is its size |
| `Decisions.MergeMovesUpToLimit` | backend/apps/ff_net/submodules/net_merging_service.py:171-187 | past the limit as well: `nets_moved` is the size of the group or 10000, whichever is less, exactly so many nets of it take the lower label, the rest of it stays, and no other net changes |
| `Decisions.DecideOnce` | backend/apps/ff_net/submodules/net_merging_service.py:134-152 | an accepted decision changes one ledger row and every later decision on the pair is refused; a refused one changes nothing |
| `Decisions.DecideErrors` | backend/apps/ff_net/submodules/net_merging_service.py:127-158 | each error exactly on its own condition; a decision is accepted if and only if the word is one of the two, the pair is recorded and pending, and an approval finds both nets |
| `Decisions.DecideAnswers` | backend/apps/ff_net/submodules/net_merging_service.py:145-187 | what an accepted decision answers: a rejection nothing more, an approval inside one group its label and no move, one across two the lower label, the higher, and the size of that group or 10000 |
| `Machine.PendingCanBeDecided` | backend/apps/ff_net/submodules/net_merging_service.py:127-158 | in every reachable state a pending pair is decided by either word, whichever net is named first, and the row then says so with the time |
| `NetMerging.FrameKeepsTest` | backend/apps/ff_net/submodules/net_merging_service.py:45-52 | loading nets into a frame, where a null becomes NaN beside numbers, changes neither the test nor the reasons |
| `Decisions.DetectRaisesIff` | backend/apps/ff_net/submodules/net_merging_service.py:84-104 | a detection raises if and only if there are two groups and the frequency column, or the bandwidth column when it is used, holds no number at all |
| `Decisions.DetectIsComplete` | backend/apps/ff_net/submodules/net_merging_service.py:84-104 | unless it raises, after a detection every proposable pair is recorded, only those were added, as pending, and detecting again adds nothing |
| `Decisions.DetectKeepsLedger` | backend/apps/ff_net/submodules/net_merging_service.py:97-104 | a detection changes no recorded row |
| `Decisions.AlertsShowNets` | backend/apps/ff_net/submodules/net_merging_service.py:62-81 | each alert added shows label, station, frequency and LTI of its lower net as A and of its higher as B, the numbers of the match, the time, and no decision |
| `Decisions.NewCandidateJustified` | backend/apps/ff_net/submodules/net_merging_service.py:62-81 | a new alert was raised across two groups; the frequency gap it shows is within the tolerance it shows, both rounded; the time gap is within its tolerance, exactly; the distance is within its tolerance rounded alike |
| `Decisions.TimeGapShownExactly` | backend/apps/ff_net/submodules/net_merging.py:157-160 | the time gap is a whole number of seconds, so rounding it changes nothing |
| `Decisions.ShownDistanceIff` | backend/apps/ff_net/submodules/net_merging.py:161-164 | the distance shown, rounded to tenths, never exceeds the tolerance shown, which is not rounded, if and only if the tolerance does not round up; 99.96 m under 99.97 m is shown as 100.0 m (`ShownDistanceExample`) |
| `Machine.ReachableTables` | backend/apps/ff_net/submodules/net_building_service.py:172-180 | in every reachable state net ids are 100001 to 100000 + n without gap, no net ever disappears, ledger pairs name existing nets, and no decision hits the missing-net error |
| `Machine.ReachableGroups` | backend/apps/ff_net/submodules/net_merging_service.py:154-181 | every step of every run within the row limit keeps the grouping invariant |
| `Machine.GroupsAreComponents` | backend/apps/ff_net/submodules/net_merging_service.py:154-181 | after any such run from empty tables groups are exactly the components of approved pairs, with the batch label |
| `Machine.ApprovalOrderIrrelevant` | backend/apps/ff_net/MERGE_PIPELINE_REFERENCE.md:318-325 | from any reachable state two ways of working through the ledger that approve the same pairs give the same labels |
| `Machine.ReachableFolds` | backend/apps/ff_net/submodules/net_building.py:387-450 | every step keeps each net equal to the fold of everything ever routed to it, all of one station |
| `Machine.NetSummarisesItsReports` | backend/apps/ff_net/submodules/net_building.py:387-450 | the same said without folding, after any run from empty tables, including station isolation |
| `Machine.GroupsCounted` | backend/apps/ff_net/submodules/net_merging_service.py:160-187 | groups are always the nets ever created less the approvals that merged two groups |
| `Machine.LedgerLifecycle` | backend/apps/ff_net/submodules/net_merging_service.py:84-152 | over any run no recorded pair disappears, no snapshot changes, and a decided row never changes again |
| `Machine.AlertsJustified` | backend/apps/ff_net/submodules/net_merging_service.py:62-81 | in every reachable state every alert satisfies what `NewCandidateJustified` says of its frequency gap, time gap and distance |
| `RowLimit.MergeExactIffFits` | backend/apps/ff_net/submodules/net_merging_service.py:171-177 | an approval across groups keeps labels and approved pairs in step if and only if the absorbed group has at most 10000 nets |
| `Crowds.CrowdedRunSplits` | backend/apps/ff_net/submodules/net_merging_service.py:171-177 | for every n past the limit a run from empty tables, under the default settings, ends in exact groups, one of n nets, with a pending pair whose approval breaks them in every read order |
| `Crowds.BirthIdsRepeat` | backend/apps/ff_net/submodules/net_building.py:380-384 | a run from empty tables ends with two nets created under one label: it was absorbed in between and handed out again |
| `Convergence.BuildRunsUnseen` | backend/apps/ff_net/submodules/net_building_service.py:256-266 | a build processes exactly the source rows whose signature is not in the history, also when the empty history turns the guard off |
| `Revisions.ProcessesIff` | backend/apps/ff_net/submodules/net_building.py:331-360 | a build processes a source row if and only if no report in the history agrees with it in FF_ID, FTI, LTI, NTI and the frequency to six decimals |
| `Revisions.RevisedRowProcessedIff` | backend/apps/ff_net/submodules/net_building_service.py:259-266 | on settled tables a revised row is processed if and only if the history holds no such version; when it knows the row only as it was, if and only if FTI, NTI or that frequency changed |
| `Revisions.RestoredRowSkipped` | backend/apps/ff_net/submodules/net_building_service.py:259-266 | a run from empty tables after which a row that changes back to an earlier version is skipped |
| `Convergence.LoggedRows` | backend/apps/ff_net/submodules/net_building_service.py:183-200 | with a fresh timestamp the history only grows, by one row for each (net, FF_ID) logged, holding the last such report |
| `HistoryRows.HistoryRowTells` | backend/apps/ff_net/submodules/net_building_service.py:277-291 | each row added holds the last report of its net and FF_ID and the label of that net; it is marked collapsed if and only if the net held anything before, and names the FF_ID the net then shows |
| `Convergence.BuildCutsUnseen` | backend/apps/ff_net/submodules/net_building_service.py:183-200 | a build lowers the number of unprocessed rows by exactly the number of distinct (net, FF_ID) pairs it logged |
| `Convergence.RebuildsSettle` | backend/apps/ff_net/PIPELINE_REFERENCE.md:503-521 | repeated builds on one source reach all-skipped in at most as many builds as there were unprocessed rows |
| `Convergence.SettledBuildIsIdle` | backend/apps/ff_net/submodules/net_building_service.py:231-233 | with nothing unprocessed a build skips every row and changes only `updated_at` |
| `Convergence.RerunSkipsAllIff` | backend/apps/ff_net/submodules/net_building_service.py:231-233 | the next build skips everything if and only if no two reports processed now share a net and an FF_ID |
| `Convergence.OneUnseenBuild` | backend/apps/ff_net/submodules/net_building_service.py:259-291 | with one unprocessed row a build routes that row and nothing else, in every read order |
| `TableReads.NoTwinsIff` | backend/apps/ff_net/submodules/net_building_service.py:231-233 | where no stored net could take one of two unprocessed rows with one FF_ID at one named station, as on empty tables: the next build skips everything, in every order in which the source can be read, if and only if there are no two such rows |
| `TableReads.TwinsTogetherBreak` | backend/apps/ff_net/submodules/net_building_service.py:183-200 | on any tables: when the unprocessed rows of one FF_ID, routed alone and latest first, put two into one net, the promise fails in an order in which the source can be read |
| `TableReads.OneEmitterIff` | backend/apps/ff_net/submodules/net_building_service.py:231-233 | on any tables, when all unprocessed rows have one FF_ID: the next build skips everything, in every order in which the source can be read, if and only if routing them alone puts no two into one net, and the orders agree |
| `TableReads.TableOrderExists` | backend/apps/ff_net/submodules/cassandra.sql:29-30 | any set of source rows can be read in an order that keeps each FF_ID together, latest first |
| `SharedId.ApartTwinsSettle` | backend/apps/ff_net/submodules/net_building_service.py:231-233 | the condition on stored nets is needed: nets that keep two such rows apart let the promise hold in every read order (`ApartExample` builds them from empty tables) |
| `Recounts.RebuildAdds` | backend/apps/ff_net/PIPELINE_REFERENCE.md:241-249 | repeated builds add exactly the NTI of the rows each of them found unprocessed |
| `Recounts.CountedOnceIff` | backend/apps/ff_net/PIPELINE_REFERENCE.md:241-249 | with positive counts, two or more builds count every unprocessed intercept at least once, and exactly once if and only if no two reports of the first shared a net and an FF_ID |
| `Recounts.SightingsCountedTwice` | backend/apps/ff_net/PIPELINE_REFERENCE.md:241-249 | two concrete rows for which the no-op fails and two intercepts are counted as three, in every read order |
| `Store.Tables.SyncBuildingTable` | backend/apps/ff_net/submodules/net_building_service.py:172-180 | the net table becomes exactly the rows written out, and what was removed is exactly what is gone |
| `Store.Tables.AppendHistory` | backend/apps/ff_net/submodules/net_building_service.py:183-200 | the history gains the entries one by one under one timestamp |
| `Store.Tables.RunPipeline` | backend/apps/ff_net/submodules/net_building_service.py:226-303 | the tables end as the build function says for some read orders, the tally counts its pass, and nothing is ever deleted |
| `Store.Tables.DetectNewCandidates` | backend/apps/ff_net/submodules/net_merging_service.py:84-104 | the ledger ends as the detect function says, the same for every read order; the count is the growth; a raise writes nothing |
| `Store.Tables.ListPendingCandidates` | backend/apps/ff_net/submodules/net_merging_service.py:107-122 | detects first, then returns the number just added, the number pending, and exactly the pending rows with their contents; a raise writes and returns nothing |
| `Store.Tables.ApplyDecision` | backend/apps/ff_net/submodules/net_merging_service.py:127-187 | tables and outcome are those of the decide function, for both decisions and every error |
| `Store.NetRowsPropose` | backend/apps/ff_net/submodules/net_merging_service.py:45-52 | whatever order the nets are read in, the scan lists the proposable pairs of the table, each once |
| `Timestamps.FormatsDisjoint` | backend/apps/ff_net/submodules/net_building.py:61-68 | no text of digits and separators is accepted by two of the six formats |
| `Timestamps.FormatOrderIrrelevant` | backend/apps/ff_net/submodules/net_building.py:150-175 | the order in which formats are tried does not matter |
| `Timestamps.ModulesAgree` | backend/apps/ff_net/submodules/net_merging.py:41-84 | the building and merging modules read every text alike |
| `Timestamps.PrintReadRoundTrip` | backend/apps/ff_net/submodules/net_building.py:57-68 | a printed time is read back as the same second by both modules |
| `Timestamps.EveryFormatRoundTrip` | backend/apps/ff_net/submodules/net_building.py:57-68 | the same for each of the six formats, to the minute without seconds |
| `Timestamps.ParseIff` | backend/apps/ff_net/submodules/net_building.py:150-175 | a format reads a text as a time if and only if the text spells it, day, month and year, white space, hour, minute and seconds if any, and the time exists |
| `Timestamps.SixFormats` | backend/apps/ff_net/submodules/net_building.py:61-68 | the accepted formats are the three separators with and without seconds, in both modules |
| `Timestamps.CalendarIff` | backend/apps/ff_net/submodules/net_building.py:150-175 | the times that exist, without month tables: months of 31 and 30 days in turn, August starting over, and February by the count of leap years |
| `Timestamps.PaddedTextRead` | backend/apps/ff_net/submodules/net_building.py:167-169 | white space around a time changes nothing |
| `Timestamps.PrintedShape` | backend/apps/ff_net/submodules/net_building.py:57-57 | the printed text is `DD-MM-YYYY HH:MM:SS`, each number in its place |
| `RowMapping.CassandraRowToDfRow` | backend/apps/ff_net/submodules/net_building_service.py:67-77 | the loop yields each cell under its frame name, the ISO text of a date as a time, NaN as null |
| `RowMapping.DfRowToCassandra` | backend/apps/ff_net/submodules/net_building_service.py:80-97 | the loop yields each cell but the two skipped under its table name, times and their text as dates, counts truncated to integers, NaN as null |
| `RowMapping.FrameColumns` | backend/apps/ff_net/submodules/net_building_service.py:34-77 | column by column: FTI and LTI become midnight of the date, the other renamed columns and those with one spelling keep their cell |
| `RowMapping.TableColumns` | backend/apps/ff_net/submodules/net_building_service.py:80-97 | column by column: FTI and LTI keep the date, NTI and FF_ID the integer part, the rest their cell, and only the net id and the row type are dropped |
| `RowMapping.TableRoundTrip` | backend/apps/ff_net/submodules/net_building_service.py:67-97 | a stored row read, its dates as ISO text, and written back is the same row, but for NaN, which becomes null, and the columns the caller sets |
| `RowMapping.FrameRoundTripIff` | backend/apps/ff_net/submodules/net_building_service.py:80-97 | a frame row stored and read back is equal if and only if it has no NaN, its date cells are times at midnight, not text, and its NTI and FF_ID are whole |
| `RowMapping.PrintedTimeStored` | backend/apps/ff_net/submodules/net_building.py:410-415 | the text that a fold writes into a date cell is stored as the date of the time it prints |

## Left out

- Requests, serializers, routing of URLs, health, metrics and logging: plumbing around the calls.
- The Cassandra driver, consistency and paging: a table is a map, an insert is an upsert, a full read returns every row once.
- Concurrent calls and crashes inside a call: the code takes no lock and its writes are not atomic; each call is one step here.
- The workbook path (`process_reports`, the CLI, CSV and Excel reading and writing, atomic replacement): file I/O around the same routing.
- The JSON shape of the build response and the generation times in responses.
- pandas column types in a build: `collapse_into` writes the FTI and LTI as text into a column that may have been loaded as times, and the FTI and LTI results assume that the cell then holds the time written; a numeric cell is `None`, NaN or a number and stays what it is.  Detection does follow the frame, in which a null is `None` only in a column without a number.
- FF_IDs that are not integers: the text comparison in the router's error branch cannot be reached from the tables.
- Floating-point rounding: frequencies, bandwidths and distances are reals; the great-circle formula is a symmetric function passed in.
- 32-bit overflow of NTI and of ids, which the driver would reject.
- The matching helpers that routing never calls (`same_emitter`, the bandwidth guard, the signal type match) and the settings that only they read.
- Leap seconds, years outside 1678 to 2261, and whitespace other than space, tab and line ends in times.
- Timestamps.FormatsDisjoint: does not cover the words "now" and "today", which pandas reads as the current time under any format.
- The link between the typed record of the tables and its dictionary form in `RowMapping`: the step functions work on the typed record, dates as day numbers.  `RowMapping` covers rows as the tables and the build produce them, so FF_ID and NTI are never text.
- TableReads.NoTwinsIff: where a stored net can take one of two such rows, and rows of other FF_IDs are unprocessed too, the outcome depends on the routing of the whole batch, and the exact condition is the one in `Convergence.RerunSkipsAllIff`.
- `apps/catalog` and the copy of the same code under `microservices/`: nothing further to prove.
