# Verified model of the benchmark algorithms and the write-ahead log

Dafny models of the self-contained algorithms in the repository's `bench/`
layer and of the storage engine's write-ahead log, with proofs of what they
promise. `dafny verify dfyconfig.toml` checks everything.

## What is modelled

* **The adjacency backend** (`bench/memorygraph_adj_spike.py`, and the reader in
  `bench/mosaicsigma_centrality_perf.py`). `AdjacencyBackend.Backend` is an
  object that updates a dict of dicts in place; the two entries of an edge are one
  mutable `EdgeAttrs` object. `Valid()` says that both directions of an edge are
  that one object, that no other edge uses it, that neighbours are rows, and that
  `_attrs` and `_node_payload` describe the same nodes, all of them rows. A ghost
  `view` is the graph the heap spells, as a value; `Histories.RunMeaning` says what
  any history of calls amounts to. The export is characterised by `Csr.IsCsr`
  without saying how it is computed, and shown to be the only triple of that kind.
* **Crash and resume** (`bench/longmemeval_blind.py`). `Checkpoint` is a state
  machine over starts in the three modes, completed rows, crashes and crashes in
  the middle of an append; the file is a list of lines, each a list of fragments,
  and a line parses only if it is exactly one whole record. `CheckpointReport`
  holds the run itself as an object that fills its result lists, tied to the
  protocol; `CheckpointLimits` and `CheckpointDurability` say exactly where the
  protocol stops short.
* **BM25 and rank fusion** (same file), against a brute-force sum and against the
  order that the placements of an id imply.
* **The census statistics** (`bench/proc_corpus_census.py`): the bisect join, the
  grouping, the time-held-out split, which half an observation is read from
  (`CensusWindows`), the seeded bootstrap and its mirrored form.
* **The cluster bootstrap** (`bench/fhrr_verdict_recall_delta.py`), **the probe
  order** (`bench/gc_live_probe.py`) and **the corpus generator**
  (`bench/contradiction_longitudinal_claude.py`).
* **The write-ahead log** (`src/iai_mcp/lillibrain/wal.py`). `WalChecksum` is the
  two-sum over 32-bit words and what it detects; `WalRecovery` the scan at open,
  against a declarative reading of which frames count; `WriteAheadLog.WALWriter` the
  writer as an object, whose `View` is the database and whose `Seen` is what readers
  get; `WalRetries` when the two agree after a failed commit; `WalCrashes` what a
  crash during commits, checkpoints and the new start of the log leaves.

`Dicts` is Python's insertion-ordered dict as a value (`Dicts.AssignedOrder`,
`Dicts.AssignedLast`: keys in the order of their first assignment, each with the
value of its last), `Sorting` its stable sort, which asks only whether one key is
less than another.

Labels are the canonical identifier strings, which sort like the naturals they
spell. A weight is finite, infinite or NaN, and every comparison with NaN is
false. Randomness is a parameter: the index tables of a bootstrap are a function
of seed, size and iterations; a shuffle is any function that permutes; the corpus
generator's draws are arbitrary choices in their range. `math.log` is any function
that is positive above 1.

## Results that differ from what the code's documentation says

* An id that is the empty string is dropped by the loader, so it is run and
  written again by every run. No id is ever written twice if and only if no id is
  empty (`CheckpointLimits.NeverTwiceExactly`).
* The checkpoint is announced as durable per row (`bench/longmemeval_blind.py:701-704`),
  but the first append after a torn line lands on that line. A finished run has
  counted every row regardless; its file holds every counted row if and only if
  that first append did not swallow a named row
  (`CheckpointLimits.FinishedDurableExactly`).
  Every finished run does, if and only if the row order holds no named id at all
  (`CheckpointDurability.AlwaysDurableExactly`).
* `rank_at_recall` is described as reading the recall before "the" co-firing; with
  several co-firings it is the latest. `per_pair_deltas` is described as drawing no
  repeat observation from the window that established the pair
  (`bench/proc_corpus_census.py:500-504`). That holds of the co-firings: a repeat's
  is always at or after the cutoff. It does not hold of the recalls that are read. A
  repeat's may lie before the cutoff (`CensusWindows.RepeatReadBeforeCutoff`), and the
  first session's at or after it (`CensusWindows.FirstObservationStraddles`). For
  either, the recall that is read is at or after the cutoff if and only if the session
  recalled something between the cutoff and its latest co-firing
  (`CensusWindows.AnchorHeldOutExactly`, `CensusWindows.RepeatsReadHeldOutExactly`,
  `CensusWindows.FirstObservationExactly`).
* The probe order is described as having no sub-window of a single cue. Two in a
  row can be the same cue, exactly where two passes meet
  (`RoundRobin.RepeatsWherePassesMeet`), which for any cues and seed some shuffle
  does (`RoundRobin.WindowOfOneCue`); three cannot.
* Reciprocal rank fusion keeps dominance if and only if k is at least -2
  (`RankFusion.DominanceExactly`); a k below zero may also cancel a rank.
* `WALWriter.rollback` is described as leaving only frames without a commit marker
  (`src/iai_mcp/lillibrain/wal.py:252-262`). Without a marker they are harmless
  (`WalCrashes.UnmarkedHarmless`). But when it is the sync of a commit that failed, the
  marker is in the file: the transaction is no part of the database, but a crash that
  leaves the file as written brings it back (`WalCrashes.RollbackUndone`). Rolling such
  a transaction back is safe against a crash if and only if the crash leaves less than
  the whole of it, or its items are what the log holds for their pages already
  (`WalCrashes.RollbackHarmlessExactly`).
* A commit whose sync failed may be followed by another without a rollback: the
  connection and the pager stay in the transaction
  (`src/iai_mcp/lillibrain/connection.py:1179-1184`,
  `src/iai_mcp/lillibrain/pager.py:826-844`). The index then takes the new frames to
  follow the committed ones (`src/iai_mcp/lillibrain/wal.py:232`), while they follow
  the leftovers. A commit of anything keeps the index right if and only if nothing was
  left (`WriteAheadLog.WALWriter.CommitTransaction`); readers see the database
  afterwards if and only if the items happen to coincide with what is there
  (`WalRetries.CommitOverLeftovers`). A commit that is simply repeated does coincide,
  but the next one need not: page 2 reads as page 1, and a checkpoint makes it so
  (`WalRetries.RetryMisleads`).
* A plain run that is resumed with `--hybrid` counts its old rows as zero in the two
  hybrid lists (`bench/longmemeval_blind.py:689-691`). The hybrid means are those of an
  uninterrupted hybrid run if and only if all those rows would have scored zero
  (`CheckpointReport.HybridMeansExactly`); the other means are in any case.

## Model

| member | source | states |
|---|---|---|
| Histories.RunMeaning | bench/memorygraph_adj_spike.py:27-71 | After any sequence of add_node, add_edge and remove_node, a node is there exactly when some call mentioned it after its last removal, and an edge is there with given attributes exactly when its last write gave them and neither end was removed since |
| Histories.RunUndirected | bench/memorygraph_adj_spike.py:27-71 | Every graph a history of calls reaches is symmetric and closed: the two directions agree and each neighbour is a row |
| Histories.ApplyKeepsUndirected | bench/memorygraph_adj_spike.py:27-71 | One call keeps a symmetric closed graph symmetric and closed |
| Histories.ApplyEntry | bench/memorygraph_adj_spike.py:27-71 | What any one call does to any entry: in particular a removal leaves every edge that does not end in the removed node as it was |
| Graphs.NewGoLast | bench/memorygraph_adj_spike.py:33-52 | A new row is the last, a new neighbour the last of its row; all others keep their places |
| Graphs.RemovedKeepOrder | bench/memorygraph_adj_spike.py:55-62 | A removed node leaves the others of its list of rows, and of every row it was in, in their order |
| Graphs.ScrubEnd | bench/memorygraph_adj_spike.py:57-62 | Visiting only the removed node's own neighbours is enough to remove it from every row |
| AdjacencyBackend.SharedObjects | bench/memorygraph_adj_spike.py:46-52 | Two entries of the dict of dicts are the same attribute object exactly when they are the two directions of one edge |
| AdjacencyBackend.Backend.constructor | bench/memorygraph_adj_spike.py:12-17 | A fresh backend is valid and spells the empty graph |
| AdjacencyBackend.Backend.AddNode | bench/memorygraph_adj_spike.py:27-37 | The new graph, community and payload maps outright; edges and existing rows are kept, and so is the sharing of attribute objects |
| AdjacencyBackend.Backend.AddEdge | bench/memorygraph_adj_spike.py:39-53 | The new graph outright; the entry's object is new, and with Valid it is the one object of both directions and of no other edge; communities and payloads are untouched |
| AdjacencyBackend.Backend.RemoveNode | bench/memorygraph_adj_spike.py:55-71 | The new graph is the old one without the node and without every mention of it, whether or not it was there; its community and payload go too |
| AdjacencyBackend.Backend.SetWeight | bench/memorygraph_adj_spike.py:49-52 | Writing the weight through one direction changes it in both directions of that edge and nowhere else |
| AdjacencyBackend.Backend.IterEdgesWithWeight | bench/memorygraph_adj_spike.py:78-86 | Emits the sequence about which EmitsEachEdgeOnce speaks |
| AdjacencyBackend.Backend.Degrees | bench/memorygraph_adj_spike.py:88-90 | Yields each row's label with the number of its neighbours, in row order |
| AdjacencyBackend.Backend.ToCsrArrays | bench/memorygraph_adj_spike.py:93-135 | The three fresh arrays are an export of the graph: well formed, with each row listing exactly the kept edges by increasing column |
| AdjacencyBackend.Backend.TwoHopNeighborhood | bench/memorygraph_adj_spike.py:138-162 | Whatever order the frontiers are walked in, the result lists without duplicates the closed form: limited rows of the seeds in the graph less the seeds, then limited rows of those less everything seen |
| AdjacencyBackend.Replay | bench/memorygraph_adj_spike.py:27-71 | Feeding any sequence of calls to a fresh backend keeps it valid and leaves the graph that RunMeaning describes |
| EdgeCounts.EmitsEachEdgeOnce | bench/memorygraph_adj_spike.py:78-86 | The emission has no duplicates and contains exactly the edges, self-loops included, each at its smaller end and with its weight |
| EdgeCounts.EmitOrder | bench/memorygraph_adj_spike.py:78-86 | Edges are emitted row by row, and within a row neighbour by neighbour |
| EdgeCounts.Handshake | bench/memorygraph_adj_spike.py:78-90 | The degrees add up to twice the number of edges emitted less the number of self-loops |
| EdgeCounts.CsrEntryCount | bench/memorygraph_adj_spike.py:106-135 | The matrix stores exactly two entries for each emitted edge with two different ends and a finite non-negative weight |
| Csr.CsrFaithful | bench/memorygraph_adj_spike.py:93-135 | Entry (a, b, w) is present exactly when the a-th and b-th label are distinct and joined by a finite non-negative weight w |
| Csr.CsrSymmetric | bench/memorygraph_adj_spike.py:93-135 | The encoded matrix is symmetric |
| Csr.CsrCanonical | bench/memorygraph_adj_spike.py:93-135 | Two graphs with the same nodes and the same kept edges have the identical triple |
| Csr.HistoriesCanonical | bench/memorygraph_adj_spike.py:27-135 | Two histories of calls with the same surviving nodes and edge weights export the identical triple, whatever the insertion order or intermediate removals |
| CsrBuild.CollectedEncodes | bench/memorygraph_adj_spike.py:104-135 | Collecting rows in dict order, sorting each by column and laying them end to end gives an export of the graph |
| CsrBuild.FillEntries | bench/memorygraph_adj_spike.py:126-134 | The cursor loop fills both arrays with the concatenation of the rows and ends exactly at their length |
| TwoHop.NeighbourhoodIsDistanceTwo | bench/memorygraph_adj_spike.py:138-162 | When no row is longer than the limit, the walk finds exactly the nodes other than the seeds at distance one or two |
| TwoHop.NeighbourhoodCard | bench/memorygraph_adj_spike.py:138-162 | From s seeds in the graph and limit k, at most s * k * (1 + k) nodes are found |
| TwoHop.TopIsHeaviest | bench/memorygraph_adj_spike.py:149-154 | Without NaN weights, no neighbour beyond the limit is heavier than one within it: a finite weight left out is at most a finite one kept, infinity is left out only for infinity, and minus infinity kept only when nothing else is left out |
| TwoHop.TopMeaning | bench/memorygraph_adj_spike.py:149-154 | What is looked at are neighbours with their edges' weights, each once, as many as the slice [:top_k] has |
| TwoHop.NeighbourhoodMembers | bench/memorygraph_adj_spike.py:138-162 | For any limit: a node is found exactly if it is no seed and is looked at from a seed, or from a node that is no seed and is looked at from one |
| TwoHop.TopKeepsTies | bench/memorygraph_adj_spike.py:153-154 | Among neighbours of one weight, those within the limit are the first inserted |
| CsrRoundTrip.Decode | bench/mosaicsigma_centrality_perf.py:71-79 | The nested loops over indptr and indices yield the list about which DecodeIsUpperTriangle speaks |
| CsrRoundTrip.DecodeIsUpperTriangle | bench/mosaicsigma_centrality_perf.py:71-79 | The decoder keeps exactly the entries above the diagonal |
| CsrRoundTrip.DecodedOrder | bench/mosaicsigma_centrality_perf.py:71-79 | The decoded edges come by ascending first end, and of one first end by ascending second |
| CsrRoundTrip.BuildMemoryGraphFromEdges | bench/mosaicsigma_centrality_perf.py:39-50 | Adding the nodes 0..n-1 and then the listed edges to a backend leaves the graph about which BuiltEntries speaks |
| CsrRoundTrip.BuiltEntries | bench/mosaicsigma_centrality_perf.py:39-50 | The built graph joins exactly the listed pairs, in both directions, with the listed weights and the default edge type |
| CsrRoundTrip.RebuiltExports | bench/mosaicsigma_centrality_perf.py:39-79 | The rebuilt graph has, on 0..n-1, exactly the entries of the decoded triple |
| CsrRoundTrip.RoundTrip | bench/mosaicsigma_centrality_perf.py:39-79 | Exporting any graph, decoding, rebuilding and exporting again gives the identical triple |
| Tiling.MaterializeAtScale | bench/mosaicsigma_centrality_perf.py:71-95 | For a target beyond the base size, the backend holds the graph about which TiledGraph speaks |
| Tiling.CeilDivMeaning | bench/mosaicsigma_centrality_perf.py:84-85 | As many tiles as cover the target, and no more |
| Tiling.TiledGraph | bench/mosaicsigma_centrality_perf.py:84-95 | The scaled graph is disjoint copies of the base graph cut off at the target: two nodes are joined exactly when they lie in one tile and their counterparts are joined with that weight |
| Tiling.ScaledExport | bench/mosaicsigma_centrality_perf.py:71-95 | From the export of any graph: the scaled graph joins x and y with w exactly when both are below the target, lie in one tile, and the triple has the entry for their counterparts |
| Checkpoint.AtMostOneLine | bench/longmemeval_blind.py:640-793 | Over every run of rows, errors, crashes, torn appends and restarts, no named id ever has two parseable checkpoint lines |
| Checkpoint.FinishedCountsEachOnce | bench/longmemeval_blind.py:640-793 | Any run that finishes has counted each id of the row order exactly once |
| Checkpoint.StepInv | bench/longmemeval_blind.py:640-793 | Every step keeps the protocol's invariant on file, completed ids and counted rows |
| Checkpoint.AppendRecords | bench/longmemeval_blind.py:708-712 | An append adds its record to a terminated file; on an unterminated line it loses that line and itself |
| CheckpointLimits.NeverTwiceExactly | bench/longmemeval_blind.py:656-659 | No run leaves two parseable lines for one id if and only if no id is empty |
| CheckpointLimits.NamelessRepeats | bench/longmemeval_blind.py:656-658 | An empty id in the row order does get written twice by some run |
| CheckpointLimits.FinishedDurableExactly | bench/longmemeval_blind.py:640-712 | The file of a finished run holds every named row it counted if and only if its first append did not swallow one on an unterminated line |
| CheckpointLimits.PrintFailsExactly | bench/longmemeval_blind.py:745-784 | If the progress print after a success line raises, the error line that follows makes two readable lines for a row new to the file, exactly if the success line did not land on an unterminated one |
| CheckpointDurability.AlwaysDurableExactly | bench/longmemeval_blind.py:640-712 | Every finished run has all its named rows on disk if and only if the row order has no named id: for any other order some torn and resumed run finishes without one |
| CheckpointReport.BlindRun.constructor | bench/longmemeval_blind.py:590-693 | Starting reaches the protocol's start state, about which BeginMeans speaks: it disposes of the checkpoint as the mode says and rebuilds ids and all ten lists from it |
| Checkpoint.BeginMeans | bench/longmemeval_blind.py:604-693 | A default start drops a checkpoint with any error record and keeps any other, --fresh drops it, --resume keeps it; counted are then the named records of what is left, and their ids are skipped |
| CheckpointReport.ListsHold | bench/longmemeval_blind.py:666-693 | A success puts its own scores and token counts on the lists, an error zeros; a record without hybrid scores counts zero in a hybrid run |
| CheckpointReport.BlindRun.Load | bench/longmemeval_blind.py:640-693 | The loading loop counts every named record once, in file order, into the lists |
| CheckpointReport.BlindRun.RunRows | bench/longmemeval_blind.py:715-784 | The row loop ends in the state that the protocol's steps lead to, with lists, completed ids and file in agreement |
| CheckpointReport.FinishReaches | bench/longmemeval_blind.py:715-784 | What the uninterrupted loop does is a run of the protocol, and it finishes |
| CheckpointReport.FinishedLists | bench/longmemeval_blind.py:590-793 | When a run finishes, per_row (only successes) and errors (only errors) together hold each id of the row order exactly once, and every list has one entry per row (the hybrid ones only in a hybrid run) |
| CheckpointReport.ResumeEqualsUninterrupted | bench/longmemeval_blind.py:640-793 | With deterministic rows, however often a run was killed and resumed, and in whichever modes, what it has counted in the end is what one uninterrupted run counts, each row in the mode of a run that it was made in |
| CheckpointReport.OneModeEqualsUninterrupted | bench/longmemeval_blind.py:640-793 | If all runs are hybrid, or all plain, that is what the uninterrupted run of the mode counts |
| CheckpointReport.ReportedMeans | bench/longmemeval_blind.py:798-799 | Where --hybrid only adds scores, the means of the other four are those of the uninterrupted run, in whatever modes the runs were |
| CheckpointReport.MeanMeaning | bench/longmemeval_blind.py:798-799 | A mean times the number of values is their total, and totals add up |
| CheckpointReport.HybridMeansExactly | bench/longmemeval_blind.py:689-691 | The two hybrid means (of scores that are never negative) are those of the uninterrupted hybrid run if and only if every row that was not run as a hybrid would have scored zero |
| Bm25.BM25Index.constructor | bench/longmemeval_blind.py:63-79 | Frequencies count documents that contain a token, each row counts a document's tokens, lengths and average are those of the documents |
| Bm25.BM25Index.Scores | bench/longmemeval_blind.py:81-101 | For every document the score is the brute-force sum over the query tokens; no division by zero is reached, even when all documents are empty |
| Bm25.RowSumsToLength | bench/longmemeval_blind.py:72-79 | Each term frequency row adds up to the document's length |
| Bm25.ScorePositiveExactly | bench/longmemeval_blind.py:81-101 | Scores are non-negative, and positive exactly when query and document share a token |
| Bm25.ScoreBound | bench/longmemeval_blind.py:81-101 | A score never exceeds k1 + 1 times the summed idf of the query tokens, and is below it once positive |
| Bm25.ScoreMeaning | bench/longmemeval_blind.py:88-100 | Scores and summed idf add up over the tokens of the query, a repeated token counting each time |
| Bm25.TermMeaning | bench/longmemeval_blind.py:94-100 | A token that occurs tf times is worth idf * 2.5 tf / (tf + norm) |
| Bm25.LengthNormMeaning | bench/longmemeval_blind.py:97-99 | The norm is 1.5 (0.25 + 0.75 dl / avgdl) |
| Bm25.IdfMeaning | bench/longmemeval_blind.py:92 | The idf is the logarithm of (n + 1) / (df + 0.5) |
| Bm25.RarerWeighsMore | bench/longmemeval_blind.py:92 | With an increasing logarithm, a token in fewer documents has the larger idf |
| Bm25.CountMeaning | bench/longmemeval_blind.py:72-75 | A term frequency is how often the document holds the token |
| Bm25.DocFreqMeaning | bench/longmemeval_blind.py:76-77 | A document frequency is the number of documents that hold the token |
| Bm25.AverageMeaning | bench/longmemeval_blind.py:66-68 | The average length times the number of documents is the length of all of them end to end |
| RankFusion.RrfFuse | bench/longmemeval_blind.py:104-114 | For every integer k: fails exactly if some rank cancels k, and otherwise gives each id of either list once, by falling reciprocal-rank score, ties by first occurrence |
| RankFusion.FusedScoreMeaning | bench/longmemeval_blind.py:109-113 | For duplicate-free lists a score is 1 / (k + rank) in the one plus the same in the other, an absent id counting 0, and the lists may change places |
| RankFusion.Dominance | bench/longmemeval_blind.py:104-114 | For duplicate-free lists, an id placed at least as well in both lists and strictly better in one is fused ahead |
| RankFusion.DominanceExactly | bench/longmemeval_blind.py:104-114 | Dominance holds for all duplicate-free lists if and only if k >= -2 |
| CensusRank.ComputeRankAtRecall | bench/proc_corpus_census.py:393-433 | The loops, the sort and the bisect return the rank about which RankMeaning speaks |
| CensusRank.RankMeaning | bench/proc_corpus_census.py:393-433 | r is returned exactly when the session's latest co-firing exists, the session's last recall at or before it exists (of several at one time the later listed), and r is the first position of b in it |
| CensusRank.LatestMeaning | bench/proc_corpus_census.py:406-416 | The time found is that of the session's latest co-firing, and none is found only if there is none |
| CensusRank.SortedAnchor | bench/proc_corpus_census.py:418-430 | The row before the bisect position of the sorted list is the latest row at or before the time, the later listed of several |
| Census.PairSessionsOrdered | bench/proc_corpus_census.py:443-456 | Pairs in order of first firing, each with its firings sorted by time |
| Census.PairFiringsMeaning | bench/proc_corpus_census.py:443-456 | A firing is listed for a pair exactly when some event has the two ids next to each other at that time in that session |
| Census.SessionlessFires | bench/proc_corpus_census.py:450-453 | An event without a session fires under "-", any other under its session |
| CensusDeltas.DistinctSessionsOrdered | bench/proc_corpus_census.py:459-472 | The loop over the seen set keeps the rows about which DistinctFacts speaks |
| CensusDeltas.DistinctFacts | bench/proc_corpus_census.py:459-472 | On time-sorted rows: one row per session, every session, each at its earliest time, still sorted |
| CensusDeltas.PairSessionsMeaning | bench/proc_corpus_census.py:443-472 | A row (t, session) remains exactly when the session first fires the pair at t |
| CensusDeltas.PerPairDeltas | bench/proc_corpus_census.py:489-528 | The result holds, in order of first firing, exactly the pairs that have a delta, each with its delta |
| CensusDeltas.Population | bench/proc_corpus_census.py:382-528 | A pair has a delta if and only if it is a key of repetition_count for that cutoff and some session first fires it at or after the cutoff |
| CensusDeltas.RepetitionKeys | bench/proc_corpus_census.py:382-390 | A pair is a key exactly if it fired before the cutoff |
| CensusDeltas.RepetitionMeaning | bench/proc_corpus_census.py:382-390 | The count of a pair is the number of different sessions that fired it before the cutoff |
| CensusDeltas.RepeatsAreHeldOut | bench/proc_corpus_census.py:516-518 | The sessions averaged as repeats are exactly those that fired the pair, and never before the cutoff |
| CensusDeltas.SplitConserved | bench/proc_corpus_census.py:382-528 | For a pair with a delta, repetition count and number of repeats add up to the number of sessions that ever fired it |
| CensusDeltas.DeltaFloor | bench/proc_corpus_census.py:489-634 | The two-sided floor of the deltas is an interval inside [-1, 1], also when there are none |
| CensusMeaning.DeltaMeaning | bench/proc_corpus_census.py:436-528 | A pair's delta is the share of its repeat sessions that recalled b among the first k hits, less one if the session of the pair's earliest firing (the first listed of several) did |
| CensusWindows.AnchorHeldOutExactly | bench/proc_corpus_census.py:418-430 | The recall that is read lies at or after the cutoff if and only if the session recalled something between the cutoff and the co-firing |
| CensusWindows.RepeatsReadHeldOutExactly | bench/proc_corpus_census.py:498-504 | All repeats of a pair are read at or after the cutoff if and only if each repeat session that recalled anything up to its latest co-firing did so since the cutoff |
| CensusWindows.RepeatsCoFireHeldOut | bench/proc_corpus_census.py:516-518 | The latest co-firing of a repeat session is at or after the cutoff |
| CensusWindows.RepeatReadBeforeCutoff | bench/proc_corpus_census.py:404-528 | A measured pair whose repeat is read, as a hit, from a recall before the cutoff |
| CensusWindows.FirstObservationExactly | bench/proc_corpus_census.py:404-430 | The first observation is read before the cutoff if and only if its session recalled nothing between the cutoff and its latest co-firing; so it is whenever that co-firing is before the cutoff |
| CensusWindows.FirstObservationStraddles | bench/proc_corpus_census.py:404-528 | A measured pair whose first observation is read, as a hit, from a recall at or after the cutoff |
| CensusMeaning.IndicatorMeaning | bench/proc_corpus_census.py:436-440 | The indicator is 1 exactly if a rank below k exists; a miss scores 0 |
| Bootstrap.BootstrapLowerCi | bench/proc_corpus_census.py:600-619 | The resampling loops return the order statistic of the sorted means, 0 for no values, and fail only for values with no iterations or fewer |
| Bootstrap.LowerCiRank | bench/proc_corpus_census.py:617-619 | For alpha in [0, 1) at most alpha * iters of the bootstrap means are below the bound, and more than that at or below it |
| Bootstrap.LowerCiEnds | bench/proc_corpus_census.py:617-619 | An alpha of 0 or less gives the smallest mean, one of 1 or more the largest |
| Bootstrap.DrawMeanWeighs | bench/proc_corpus_census.py:614-616 | A bootstrap mean is that of the values, each weighed by how often it was drawn |
| Bootstrap.LowerCiMonotone | bench/proc_corpus_census.py:600-619 | With the same seed, pointwise larger values never give a smaller bound |
| Bootstrap.LowerCiTranslates | bench/proc_corpus_census.py:600-619 | Adding c to every value adds c to the bound |
| Bootstrap.SortBelow | bench/proc_corpus_census.py:617 | Sorting preserves the pointwise order of two vectors |
| Bootstrap.Mirror | bench/proc_corpus_census.py:632-633 | The k-th smallest negated value is the negated k-th largest value |
| Bootstrap.MirrorLaw | bench/proc_corpus_census.py:622-634 | The two-sided floor is order statistics idx and iters - 1 - idx of one sorted bootstrap vector |
| Bootstrap.FloorRanks | bench/proc_corpus_census.py:622-634 | At most a twentieth of the bootstrap means lies below the low end, and more at or below it; the same above the high end |
| Bootstrap.FloorIsInterval | bench/proc_corpus_census.py:622-634 | For every positive iters, low <= high, and both lie between the smallest and largest value |
| ClusterBootstrap.ClusterStratifiedBootstrapCi | bench/fhrr_verdict_recall_delta.py:107-146 | Refuses mismatched lengths, gives 0 without pairs, refuses negative iters and an alpha outside [0, 1], fails on zero iters, and otherwise gives the alpha-quantile of the deltas of the resampled clusters |
| ClusterBootstrap.GroupByCluster | bench/fhrr_verdict_recall_delta.py:131-133 | Clusters in order of first appearance, each with exactly its rows in order |
| ClusterBootstrap.DeltaIsMeanGain | bench/fhrr_verdict_recall_delta.py:98-104 | The delta of the two means is the mean of arm minus baseline, row by row |
| ClusterBootstrap.RowsMeaning | bench/fhrr_verdict_recall_delta.py:131-133 | A cluster's rows are those at its places, in order, and no others |
| ClusterBootstrap.ResampledMeaning | bench/fhrr_verdict_recall_delta.py:141-143 | A resampling is the rows of the chosen clusters, one cluster after the other |
| ClusterBootstrap.QuantileMeaning | bench/fhrr_verdict_recall_delta.py:146 | The quantile at (k + f) / (n - 1) lies the fraction f of the way from the k-th of n order statistics to the next |
| ClusterBootstrap.BoundBetweenClusterMeans | bench/fhrr_verdict_recall_delta.py:107-146 | If every cluster's mean of arm minus baseline, row by row, lies between lo and hi, so does the bound, for any cluster sizes and any resampling |
| ClusterBootstrap.OneClusterBound | bench/fhrr_verdict_recall_delta.py:82-146 | With one cluster the bound is conditional_recall_delta of all pairs, the mean of arm minus baseline row by row |
| ClusterBootstrap.TwoSidedInterval | bench/fhrr_verdict_recall_delta.py:118-121 | The caller's second bound, from signed outcomes, is the (1 - alpha)-quantile of the same resampled deltas, so up to alpha = 1/2 the two are an interval |
| ClusterBootstrap.QuantileMirror | bench/fhrr_verdict_recall_delta.py:118-146 | The alpha-quantile of negated values is the negated (1 - alpha)-quantile |
| RoundRobin.FlattenedMembers | bench/gc_live_probe.py:92-97 | A cue is in the flattened list exactly when its band lists it |
| RoundRobin.FlattenedOrder | bench/gc_live_probe.py:92-97 | The flattened list goes band after band |
| RoundRobin.FlattenedBand | bench/gc_live_probe.py:92-97 | Within a band it goes cue after cue |
| RoundRobin.FlattenedDistinct | bench/gc_live_probe.py:92-97 | With different band names and no cue twice in a band, no cue is flattened twice |
| RoundRobin.FlattenCues | bench/gc_live_probe.py:92-97 | The nested loops give the flattened list |
| RoundRobin.RoundRobinOrder | bench/gc_live_probe.py:100-113 | Terminates with exactly n items (none for a negative n), cut from whole shuffled passes |
| RoundRobin.FairPrefixes | bench/gc_live_probe.py:100-113 | In every prefix the counts of any two cues differ by at most one |
| RoundRobin.FairWindows | bench/gc_live_probe.py:100-113 | With c cues, every contiguous window of 2c - 1 items contains every cue |
| RoundRobin.RepeatsWherePassesMeet | bench/gc_live_probe.py:100-113 | A cue follows itself exactly at the end of a pass whose last cue is the next pass's first |
| RoundRobin.NeverThreeInARow | bench/gc_live_probe.py:100-113 | With at least two cues, no three items in a row are one cue |
| RoundRobin.WindowOfOneCue | bench/gc_live_probe.py:101-103 | For any cues and any seed, some shuffle gives an order of two passes with a window of two items that holds a single cue |
| Corpus.GenerateCorpus | bench/contradiction_longitudinal_claude.py:238-340 | For every outcome of the generator and every session count: exactly that many entries (none if negative), laid out as Layout says; how many flips are placed; exactly the asked-for probes, in order, if any flip was placed, which is so from two sessions on |
| Corpus.PlaceFlip | bench/contradiction_longitudinal_claude.py:254-303 | With room for two entries, a flip is placed whole: before it as many filler sentences as drawn, or as leave room for two entries, and between its sides as many as drawn, or as leave room for one; never beyond the session count |
| Corpus.FlipBudgetMeaning | bench/contradiction_longitudinal_claude.py:246-248 | At least one flip is sampled, at most all, and otherwise one for every four sessions |
| Corpus.FlipEntries | bench/contradiction_longitudinal_claude.py:265-294 | A placed flip's entries carry its original and its correction, under its topic, each marked as what it is |
| Corpus.FillerEntries | bench/contradiction_longitudinal_claude.py:259-286 | Every other entry is a filler sentence without topic or mark |
| Corpus.SessionsNumbered | bench/contradiction_longitudinal_claude.py:252-312 | The i-th entry carries session index i |
| Corpus.NoOrphans | bench/contradiction_longitudinal_claude.py:252-312 | No original without a strictly later correction of its topic, and no correction without an earlier original |
| Corpus.OncePerTopic | bench/contradiction_longitudinal_claude.py:252-312 | A topic is announced at most once and corrected at most once |
| Corpus.ProbesAnswerable | bench/contradiction_longitudinal_claude.py:313-340 | Every probe is about a placed flip, whose original and later correction the corpus holds; it asks with the cue of its condition and topic and expects the corrected value after the flip, the original one for history |
| WalChecksum.WalChecksum | src/iai_mcp/lillibrain/wal.py:61-79 | The loop over word pairs computes the sum about which the next rows speak |
| WalChecksum.ChecksumIsTwoSum | src/iai_mcp/lillibrain/wal.py:19-24 | The checksum is the last two terms of the sequence that starts with the two halves of the sum and adds each word to the two terms before it |
| WalChecksum.ChecksumInjective | src/iai_mcp/lillibrain/wal.py:23-25 | On the same input different running sums stay different: a broken chain never heals |
| WalChecksum.DamageDetected | src/iai_mcp/lillibrain/wal.py:61-79 | Damage confined to the two words of one round always changes the sum |
| WalRecovery.RecoverWalOnOpen | src/iai_mcp/lillibrain/wal.py:358-505 | A readable sidecar is removed, and the main file has exactly the frames up to the last commit marker of the unbroken chain replayed over it; a bad header replays nothing; no or an unreadable sidecar changes nothing |
| WalRecovery.ScanFrames | src/iai_mcp/lillibrain/wal.py:442-483 | The scan with its two accumulators collects exactly those frames, newest per page |
| WalRecovery.RecoveryRestarts | src/iai_mcp/lillibrain/wal.py:391-393 | However far an interrupted recovery got with its pages, recovering again gives what an uninterrupted one gives |
| WalRecovery.RecoveryIdempotent | src/iai_mcp/lillibrain/wal.py:391-393 | Recovering twice is recovering once |
| WalRecovery.CommittedSurvive | src/iai_mcp/lillibrain/wal.py:447-483 | Surviving complete transactions are all replayed whatever follows them, and after them only complete ones whose frames continue the chain |
| WalRecovery.ExactlyCommitted | src/iai_mcp/lillibrain/wal.py:447-483 | Exactly they are if the next slot does not continue the chain |
| WalRecovery.LeftoverAccepted | src/iai_mcp/lillibrain/wal.py:464-473 | A leftover frame continues the chain exactly if the running checksum it was written after is the one that it now follows |
| WalRecovery.DamagedFrameRejected | src/iai_mcp/lillibrain/wal.py:470-473 | A frame with two neighbouring words of its page damaged breaks the chain |
| WalRecovery.DamagedFrameHeadRejected | src/iai_mcp/lillibrain/wal.py:470-473 | So does one with its page number or its size of the database damaged |
| WalRecovery.DamagedHeaderRejected | src/iai_mcp/lillibrain/wal.py:420-437 | A header that is accepted has the right magic and page size, and is not accepted with its version, checkpoint number or salts damaged |
| WriteAheadLog.WALWriter.constructor | src/iai_mcp/lillibrain/wal.py:97-177 | A new log is valid and empty, and readers see the main file |
| WriteAheadLog.WALWriter.AppendFrame | src/iai_mcp/lillibrain/wal.py:183-207 | One chained frame at the write head, over whatever was there; nothing before it changes |
| WriteAheadLog.WALWriter.CommitTransaction | src/iai_mcp/lillibrain/wal.py:213-250 | For any state of the log: the frames appended, the new database, counts and index outright; without the sync the database stays and the complete transaction is in the file; a valid log stays valid if and only if the sync failed, there was nothing to commit, or nothing lay after the committed frames |
| WriteAheadLog.WALWriter.Rollback | src/iai_mcp/lillibrain/wal.py:252-269 | Rewinds to the last commit; the database stays |
| WriteAheadLog.WALWriter.ReadPage | src/iai_mcp/lillibrain/wal.py:271-285 | Gives what the index names, or the main file's page; with a valid log that is the database's page |
| WriteAheadLog.WALWriter.Checkpoint | src/iai_mcp/lillibrain/wal.py:291-339 | For any state of the log, if both syncs succeed: the main file becomes what readers get page by page, which with a valid log is the database, and the log is valid, empty and has a new header, or nothing was indexed and all stays; if one fails the log stays, and so does the main file unless the pages were copied already |
| WalRetries.RetriedReadsExactly | src/iai_mcp/lillibrain/wal.py:232-243 | With n committed frames, leftovers after them and a commit after those, reading through the index is right for every page and main file if and only if, for each page committed now, the frame found by counting from the first leftover holds what is committed, and each page that only the leftovers hold is indexed with what they hold |
| WalRetries.CommitOverLeftovers | src/iai_mcp/lillibrain/wal.py:213-250 | A commit over leftovers makes the leftovers part of the database too; readers see it if and only if those coincidences held before the call |
| WalRetries.RetryMisleads | src/iai_mcp/lillibrain/wal.py:213-339 | Committing page 1 in vain, then again, then page 2: a reader of page 2 gets page 1's content and a checkpoint copies it there, while opening the log would give page 2 as committed |
| WalCrashes.CrashKeepsCommits | src/iai_mcp/lillibrain/wal.py:358-505 | Whatever a crash leaves after the synced frames, reopening gives every committed transaction and only complete chained ones more; none more if the next slot does not continue the chain |
| WalCrashes.CheckpointMayCrash | src/iai_mcp/lillibrain/wal.py:313-327 | The same holds when the crash interrupts the copying of a checkpoint, in whatever state the copied pages are |
| WalCrashes.RestartMayCrash | src/iai_mcp/lillibrain/wal.py:329-339 | And when it interrupts the new start of the log: the file cut off, a broken header, or the new header before old frames; nothing is replayed over the copied pages |
| WalCrashes.StaleFrameRejected | src/iai_mcp/lillibrain/wal.py:464-473 | A frame of the old log never continues the new header, even if the new salt repeats the old one |
| WalCrashes.UnmarkedHarmless | src/iai_mcp/lillibrain/wal.py:252-262 | Leftovers without a commit marker change no recovery |
| WalCrashes.RollbackUndone | src/iai_mcp/lillibrain/wal.py:252-269 | A transaction whose sync failed and that was rolled back is no part of the database but is recovered if the crash leaves the file as written |
| WalCrashes.RollbackHarmlessExactly | src/iai_mcp/lillibrain/wal.py:252-269 | For a transaction that is to be rolled back and however much of it a crash leaves intact: opening gives the database without it, for every main file, if and only if that is less than the whole or the items are what the log holds for their pages already |

## Left out

- Stores, embeddings, recall dispatch, subprocesses, the command line and printing: they call code that is not in these files.
- Floating-point rounding: scores, means and weights are reals, and 0.05 is exactly one twentieth.
- Parsing checkpoint lines character by character: a line parses exactly if it is one whole record; a torn part of a record never parses, nor do two on one line.
- Ordinary exceptions in `_checkpoint_append`, and in the progress print that follows a success line inside the same `try` (a broken stderr, say): an append succeeds or the process dies, and the print succeeds. CheckpointLimits.PrintFailsExactly says what the file holds otherwise. The row order stays the same across restarts.
- The per-row fields other than ids, errors, scores and token counts; in particular the loaded rows carry a classification that freshly run ones do not.
- CheckpointReport.BlindRun.RunRows: models the uninterrupted loop; crashes are steps of the state machine in Checkpoint, not of this method.
- Tokenising: documents and queries are token lists.
- RankFusion.Dominance: is stated for lists without duplicates, as an id's place in a list is otherwise not unique, and for k >= 0, the rest being DominanceExactly's; RrfFuse itself is for any lists and any k.
- Seeds of the walk and node ids that are not canonical label strings, the fallbacks for missing or unparsable `weight` values (every edge of the backend has a float), and the private centrality flag beyond its being set.
- AdjacencyBackend.Backend.SetWeight: no method of the source writes a weight after the fact; it states what a caller who writes through one direction of the shared object gets.
- TwoHop.TopIsHeaviest: is for rows without NaN weights; with them the sort leaves an order that depends on the algorithm, and the model fixes insertion sort's. The closed form holds for whichever order is fixed.
- The full MemoryGraph that the reader builds: the model builds the backend of the spike, which keeps edges in the same way. Embeddings of the built nodes are left empty.
- The snapshot file, a snapshot without `data`, the networkx fallback and targets no larger than the base graph in `materialize_graph_at_scale`.
- The bits of the random generators. The quantile of no values is taken to raise IndexError, as numpy of the required versions does.
- Text wording: cues are a function of condition and topic, and session and probe ids are their parts rather than formatted strings.
- The pinned flip table, filler sentences and cue bands, of which only this is used: topics differ, there is some filler, there is some cue and no band lists one twice.
- Verdicts, gates, the odd/even null control, tool bigrams and simple metrics: one reading of a branch settles them.
- The rest of the storage engine: the B+tree and its deletion, overflow chains, the freelist, the rollback journal and the pager that calls the log; SQL.
- The log byte by byte: a page is its 2048 words of the default page size, a frame's place in the file holds a whole frame or too few bytes, and page numbers are not 0. Two transactions never run at once, as the caller's lock ensures; a commit has a database size above 0, as the pager's header always does; and there are fewer than 2^32 checkpoints, after which the header's number would not fit.
- Durability of single writes: what is synced survives a crash, and of the rest anything may be left.
