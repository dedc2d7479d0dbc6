# Verification of the Gauntletarr reseeding engine

Given a `.torrent` and the files on disk, the backend decides whether the torrent can be rebuilt
exactly, rebuilds it with hardlinks, hands it to a torrent client and follows the job until it seeds.
This project models that path, and the components that feed it, in Dafny 4.11 and proves what it
promises. `dafny verify dfyconfig.toml` checks everything.

| module | source | what it is about |
|---|---|---|
| `Bencode`, `Metainfo` | `app/torrent_file.py` | bencoding (BEP 3, section "bencoding"), the info span and hash, the file table (section "metainfo files") |
| `Sweep`, `PieceRanges`, `FullCheck` | `app/full_check.py` | the two-pointer sweep over all pieces, its totals, the verdict |
| `SampledCheck` | `app/torrent_pieces.py` | the sampled check of one file, what a clean answer stands for, and why it agrees with the sweep |
| `Candidates`, `SeedJobs`, `Tolerance` | `app/executor.py`, `app/torrent_layout.py` | the missing-bytes allowance, from a passed verdict to `seeding` |
| `Executor`, `SeedSide` | `app/executor.py`, `app/torrent_layout.py` | the all-or-nothing rebuild; planner and executor on the torrent side |
| `Layouts`, `MediaSide`, `Scoring` | `app/torrent_layout.py` | library-side mapping, and confidence down to the pieces hashed |
| `Matching` | `app/matching.py` | whole matching runs: downloads, packs, and that what is stored is the torrent its link serves |
| `Handover` | `app/torrent_layout.py`, `app/executor.py` | from the mapping through the stored candidate to the executor's checks |
| `MatchingExamples`, `ExampleTorrents` | `app/matching.py`, `app/torrent_file.py` | runs and `.torrent` files that show a failed promise, or that a theorem is about something |
| `ReviewQueue`, `VerificationGate` | `app/review.py`, `app/full_check.py` | the queue over whole runs; checks, cancellation and restarts between decision and execution |
| `RateLimiter` | `app/adapters/tracker/base.py` | the sliding window and the download loop |
| `Indexer` | `app/torrent_indexer.py`, `app/db_utils.py` | the tables that mirror a torrent client |
| `FileChanges` | `app/file_changes.py` | the change log between scans |
| `FileTree` | `frontend/src/components/FileTree.tsx` | the aggregated file tree |

Code that changes state is imperative here too: classes with the fields of the source
(`HandleTable`, `FileSystem`, `SeedJob`, `Queue`, `Gate`, `MatchContext`, `Limiter`, `Database`,
`ChangeLog`, `TreeNode`), loops with invariants, each method proved equal to a function of its inputs
or of the old state; the theorems are about those functions and about runs of steps.

What the outside decides is a parameter: SHA-1, text decoding, the disk with its read faults, the
client's status, the tracker's answers, the clock, and which operations of the file system or of the
database fail. Confidences are exact reals; times are exact reals.

## Where the code does not keep a promise

Each of these comes with an input for which the promise fails and the exact condition under which it
holds.

- A repeated `info` key: the hash is taken over the first value, `decode` keeps the last
  (`RepeatedInfoKeyDisagrees`; `SpanAgreesWithDecode`).
- A recommended torrent is said to be piece-verified, but a video with no piece wholly inside it gets that
  confidence with nothing hashed (`VerifiedWithNothingHashed`, `CleanWithNothingHashed`; `NothingHashedIff`,
  and `RecommendedIsHashed` for what was hashed otherwise).
- In the totals of a full check, a mismatching piece of a short file counts as unreadable although its
  bytes were read (`ShortFileCountsAsUnreadable`), and a read error on a whole file counts as mismatched
  (`ReadErrorCountsAsMismatched`; `TotalsMeaning` characterises all three totals).
- The executor accepts what `map_seed_side` matched exactly when the mapped root is normal
  (`ExecutorAgreesWithMapping`, `SeedCandidateAddableIff`; `AbnormalRootIsRefused`). The scanner
  stores relative paths, and such paths give normal roots only (`NormalPathsGiveNormalRoots`), so there the
  two agree.
- `approve` and `reject` do not look at the status. In a run of ordinary steps, approving a rejected review
  holds a torrent for two files, and rejecting a superseded one leaves a rejected torrent ready
  (`UnguardedApprovalBreaksTheQueue`, `UnguardedRejectionBreaksTheQueue`; `ApprovalSafeIff`, `RejectionSafeIff`).
- The automatic execution does not look again after verifying: it can execute what the user just rejected
  (`AutomaticPathExecutesARejectedReview`; `AutomaticActsOnReadyIff`, over runs). It and the handler of an
  error after a passed verdict can leave a live check that no review names, and then a second one starts
  (`AutomaticPathAllowsTwoChecks`, `LateErrorAllowsTwoChecks`, `DisturbedMeansTwo`; `LiveNamedIff` for one
  step, `LiveNamedThroughoutIff` for runs).
- `request_approval` submits the check before it writes `verifying`; a fast worker leaves the review
  stuck (`FastWorkerLeavesReviewStuck`, `StuckStays`; `MarkIsSafeIff`).
- `fetch_torrent` promises one download per URL and run, but a file on which the parser raises something
  else than its own error is not remembered, and every search that meets it downloads it again
  (`CrashIsDownloadedAgain`, `CrashIsDownloadedInEverySearch`; `DownloadsIff` for one fetch,
  `DownloadedOnceIff` for runs, both over the replies of the tracker).
- A pack examined before a download ends a search early stays marked although its candidate is rolled
  back, so no other episode of it is examined again in that run (`APackIsLost`, `MarkedPackIsSkipped`;
  `LostPacksIff` for one search, over the torrents it got through, and `EveryPackStoredIff` for runs).
- With a clock that stands still between two calls the rate limiter can let too many requests through
  (`StandingClockBreaksTheBound`; `SafeIff` for one call, `PromiseIff` for runs).
- After a scan that found no file at all, the next scan records no change (`AfterAnEmptyScanNothingIsTold`;
  `FaithfulIff` for one recording, `ToldThroughoutIff` for runs).

## Model

| member | source | states |
|---|---|---|
| `Bencode.Decode` | app/torrent_file.py:36-61 | the recursive reader with its loops terminates on every input and gives the reference decoding; with `Bencode.RoundTrip` that means the value and the exact end position |
| `Bencode.DecodeDict` | app/torrent_file.py:48-55 | the dictionary loop reads key and value alternately, assigning in order, up to the closing byte |
| `Bencode.RoundTrip` | app/torrent_file.py:36-61 | for every nested value, anywhere in any input and whatever follows, decoding its encoding returns the value and the position just after it |
| `Bencode.EncodeInjective` | app/torrent_file.py:36-61 | two values with the same encoding, even as a prefix of a longer input, are equal |
| `Bencode.DistinctAsDict` | app/torrent_file.py:50-55 | with distinct keys the dictionary holds the pairs in the order read |
| `Bencode.LastAssignmentWins` | app/torrent_file.py:50-55 | a repeated key keeps the value assigned last |
| `Metainfo.FindInfoSpan` | app/torrent_file.py:199-209 | the loop finds the span of the first `info` key, or fails as the source does |
| `Metainfo.ComputeInfoHash` | app/torrent_file.py:189-196 | the hash is SHA-1 of the raw span, never of a re-encoding |
| `Metainfo.SpanIsFirst` | app/torrent_file.py:199-209 | on any input whose pairs decode, the span is that of the first `info` value, and decoding it gives that value |
| `Metainfo.SpanAgreesWithDecode` | app/torrent_file.py:189-209 | the span holds the value `decode` keeps under `info` if and only if the first and the last assignment to `info` are equal; always for distinct keys |
| `Metainfo.SpanInPairs` | app/torrent_file.py:199-209 | in an encoded dictionary, keys in any order, the span holds exactly the bytes of the `info` value |
| `Metainfo.InfoHashOfEncoding` | app/torrent_file.py:189-196 | other keys, their order and trailing bytes play no part in the hash |
| `Metainfo.RepeatedInfoKeyDisagrees` | app/torrent_file.py:199-209 | an input with two `info` keys whose hashed value is not the decoded one |
| `Metainfo.ReadFiles` | app/torrent_file.py:156-170 | offsets are the prefix sums of the lengths: files tile the stream in declared order |
| `Metainfo.Hashes` | app/torrent_file.py:152-154 | the blob is cut into exactly its 20-byte hashes |
| `Metainfo.HashesOfConcat` | app/torrent_file.py:152-154 | cutting the concatenation of hashes gives the hashes back |
| `Metainfo.ParseTorrentInfo` | app/torrent_file.py:131-186 | a result is complete: positive piece length, 20-byte hashes, contiguous files; otherwise the error of the source |
| `Metainfo.ParseOfEncoding` | app/torrent_file.py:131-186 | a `.torrent` of any number of files, with other keys at the top, in `info` and in the entries, all in any order and anything after it, parses back to exactly that torrent |
| `Metainfo.ParseOfSingleFile` | app/torrent_file.py:171-186 | the same for a single-file torrent: one file, named like the torrent, as long as the whole |
| `Sweep.HandleTable.Read` | app/full_check.py:165-175 | the bytes are those of the disk or nothing; a handle is kept as soon as `open` succeeds |
| `Sweep.HandleTable.Close` | app/full_check.py:122-126 | closing releases the handle of that file and no other |
| `Sweep.HandleTable.CloseAll` | app/full_check.py:159-161 | on the way out everything acquired has been released |
| `Sweep.Advance` | app/full_check.py:122-126 | the first pointer skips exactly the files that end at or before the piece |
| `Sweep.ReadPiece` | app/full_check.py:127-142 | the second pointer touches exactly the non-empty files overlapping the piece, each once, and feeds the digest the naive concatenation |
| `Sweep.TallyAll` | app/full_check.py:143-157 | the counters of the touched files become those of the naive definition |
| `Sweep.VerifyAllPieces` | app/full_check.py:95-162 | the sweep gives every file the naive per-piece counters and the naive list of bad pieces, stops if and only if cancelled, releases every handle and opens no file twice |
| `Sweep.EndsBeforeStarts` | app/full_check.py:122-126 | in a contiguous table an earlier file ends before a later one starts, which is why the pointers never go back |
| `PieceRanges.TouchRange` | app/full_check.py:293-303 | a piece touches a file if and only if its number is in the closed-form range |
| `PieceRanges.TouchCountClosed` | app/full_check.py:131-147 | the number of pieces seen for a file is the size of that range |
| `PieceRanges.CountsAddUp` | app/full_check.py:145-153 | ok + mismatched + unreadable is the number of touching pieces, after any number of pieces |
| `PieceRanges.RowTotals` | app/full_check.py:54-64 | the same for the final row, against the closed-form range |
| `PieceRanges.FirstBadIsLowest` | app/full_check.py:154-157 | `first_bad_offset` is set if and only if a bad piece touches the file, and comes from the lowest |
| `PieceRanges.DataIsStreamSlice` | app/full_check.py:127-142 | the bytes hashed for a piece are its slice of the concatenated stream |
| `PieceRanges.HeldPieceIsGood` | app/full_check.py:127-157 | with the right bytes in every file it touches, a piece is good |
| `FullCheck.UnreadablePieces` | app/full_check.py:293-303 | the set grown in the loop is the reference set |
| `FullCheck.UnreadableMeaning` | app/full_check.py:293-303 | it holds exactly the pieces touching a file that is not there in full |
| `FullCheck.RunFullCheck` | app/full_check.py:236-270 | the result is the summary of the naive definition, or none if and only if cancelled |
| `FullCheck.TotalsMeaning` | app/full_check.py:253-269 | what each of the three totals counts, and that they partition the pieces |
| `FullCheck.ShortFileCountsAsUnreadable` | app/full_check.py:253-269 | a torrent that a `.torrent` file parses to, a file one byte short, and a piece of it that was read and differs: it counts as unreadable |
| `FullCheck.ReadErrorCountsAsMismatched` | app/full_check.py:253-269 | such a torrent whose only piece could not be read, and still counts as mismatched |
| `FullCheck.Verdict` | app/full_check.py:273-290 | passes if and only if no piece is mismatched and every row fits; the reason is the first failing row's |
| `FullCheck.VerdictExact` | app/full_check.py:236-303 | passes if and only if the files fit and every piece touching no missing file hashes correctly, failing reads and short files included |
| `FullCheck.MismatchedMeaning` | app/full_check.py:253-258 | no piece counts as mismatched if and only if every piece of whole files is good |
| `FullCheck.VerdictComplete` | app/full_check.py:236-303 | if located files hold the torrent's bytes and only non-video files are missing, the verdict passes |
| `SampledCheck.RoundSpreads` | app/torrent_pieces.py:84-89 | half-even rounding of multiples of a step above one never repeats |
| `SampledCheck.PickEnds` | app/torrent_pieces.py:84-89 | the first and last picked positions are the first and last piece |
| `SampledCheck.PickAll` | app/torrent_pieces.py:84-89 | the picked set has exactly `max_pieces` members, ends included |
| `SampledCheck.Sample` | app/torrent_pieces.py:84-89 | the sample is an increasing part of the inner pieces with min(inner, max) members and both ends, for every bound |
| `SampledCheck.SampleIsFair` | app/torrent_pieces.py:84-89 | the same for the sampling as a function: the rounded picks, sorted and without repetition |
| `SampledCheck.InnerIsContiguous` | app/torrent_pieces.py:69-83 | every piece strictly between the first and the last of a file is inner |
| `SampledCheck.Split` | app/torrent_pieces.py:69-83 | at most two boundary pieces; the inner ones are consecutive; together they are all |
| `SampledCheck.VerifyFilePieces` | app/torrent_pieces.py:43-106 | the answer is the one defined without loops: the inner pieces, the sample of them, and its counts of matches and mismatches; empty when a piece cannot be read or has no hash |
| `SampledCheck.CheckedAnswers` | app/torrent_pieces.py:43-106 | that answer counts the matching and the differing pieces of the sample, and the boundary pieces, or is empty |
| `SampledCheck.CleanMeans` | app/torrent_pieces.py:25-40 | a clean answer means that the file was opened and min(inner, max) inner pieces were read and all hash right; that is none of them if and only if no piece is inner |
| `SampledCheck.NothingHashedIff` | app/torrent_pieces.py:91-106 | of a readable file nothing is hashed if and only if no piece lies wholly inside it, and the answer then is clean all the same |
| `SampledCheck.CleanWithNothingHashed` | app/torrent_pieces.py:25-40 | a file of three bytes, between shared pieces, whose answer is clean with nothing hashed |
| `SampledCheck.InnerTouchesOne` | app/torrent_pieces.py:69-83 | an inner piece touches its own file only |
| `SampledCheck.InnerOutcome` | app/torrent_pieces.py:91-106 | the full sweep judges an inner piece on exactly the chunk the sampled check reads |
| `SampledCheck.MismatchesBounded` | app/torrent_pieces.py:91-106 | the sample reports no more mismatches than the sweep counts bad pieces of that file |
| `SampledCheck.CleanSweepMeansCleanSample` | app/torrent_pieces.py:25-40 | if the sweep finds no bad piece of the file, any sample of it reports no mismatch and is clean |
| `Tolerance.TouchedBound` | app/torrent_layout.py:390-396 | the pieces touching a file total at most its length plus two pieces |
| `Tolerance.CoverBound` | app/torrent_layout.py:390-396 | for any mix of missing files the pieces touching them total at most sum of sizes + 2 x piece length x count |
| `Tolerance.LeftIsCovered` | app/executor.py:414-444 | if bad pieces touch missing files only, their total is bounded by that cover |
| `Tolerance.LeftWithinAllowance` | app/executor.py:91-93 | after a passed verdict what is left never exceeds the allowance stored with the job |
| `Tolerance.PassedVerdictSeeds` | app/executor.py:414-444 | end to end: passed verdict, agreeing rows and a client reporting the failing pieces as left end in `seeding` |
| `Tolerance.ExampleSeeds` | app/executor.py:414-444 | the hypotheses of that result hold, with bytes left to download, for a torrent that a `.torrent` file parses to: a video there in full, an extra missing |
| `SeedJobs.SeedJob.Reconcile` | app/executor.py:414-444 | a job without info hash is refused unchanged; otherwise status and error follow the tolerated recheck |
| `SeedJobs.SeedJob.Retry` | app/executor.py:447-473 | only failed jobs are retried; one already in the client is asked again, with the status and error that gives; any other is started over for the only review of its candidate and file, and fails if there is not exactly one |
| `Executor.FileSystem.Link` | app/executor.py:170-171 | one name more for the source's inode, or nothing |
| `Executor.FileSystem.Unlink` | app/executor.py:192-195 | one name less, or nothing when it fails |
| `Executor.StructureError` | app/executor.py:96-113 | a multi-file candidate without folder is refused for that, whatever else; otherwise the first video without file is named; accepted if and only if neither is the case |
| `Executor.FirstMissingVideo` | app/executor.py:108-113 | accepts if and only if every video has a local file, and else names the first that has none |
| `Executor.PlanLinks` | app/executor.py:139-155 | succeeds if and only if no row fails a check, with one link per row that has a library file, in order; else the first failing row's error |
| `Executor.Precheck` | app/executor.py:123-158 | passes if and only if all the conditions hold, and writes nothing |
| `Executor.MakeLinks` | app/executor.py:167-172 | makes exactly the links before the first that cannot be made |
| `Executor.RollBack` | app/executor.py:190-195 | removes what this call created and nothing else |
| `Executor.ExecuteMediaToTorrent` | app/executor.py:116-200 | exactly when each outcome happens; an error of a row is that of the first row that fails its checks; existing paths are never touched; without an info hash the file set is the initial one up to failed removals; with one, the links are exactly the plan |
| `Executor.UndoneIsInitial` | app/executor.py:187-195 | when removals work, a failed call leaves the initial file set |
| `Executor.AllLinkedIff` | app/executor.py:169-172 | the whole plan is linked if and only if no operation fails and no two targets collide |
| `Executor.StopsAtCollision` | app/executor.py:169-172 | a link onto an existing name is never made |
| `SeedSide.FindRoot` | app/torrent_layout.py:255-262 | the root is that of the first torrent file the anchor can be |
| `SeedSide.MapSeedSide` | app/torrent_layout.py:252-269 | one answer per torrent file in order: the row at root + torrent path on the anchor's disk |
| `SeedSide.AnchorRow` | app/executor.py:219-221 | the first row that is the anchor, or none is |
| `SeedSide.LocateOnDisk` | app/executor.py:219-234 | succeeds if and only if the root can be rebuilt and every matched file is in place and on disk |
| `SeedSide.ExecuteTorrentToClient` | app/executor.py:203-263 | exactly when each outcome happens, where the torrent is added, and that no path changes |
| `SeedSide.AnchorIsFound` | app/torrent_layout.py:255-269 | the anchor is among the files mapped |
| `SeedSide.RootIsRebuilt` | app/executor.py:219-225 | the executor rebuilds the mapped root, without its trailing slashes, from the anchor's row |
| `SeedSide.ExecutorAgreesWithMapping` | app/executor.py:219-234 | every matched file passes the executor's checks if and only if the root is normal |
| `SeedSide.MatchedPath` | app/torrent_layout.py:265-269 | joining the root with a torrent path gives the matched file's path |
| `SeedSide.NormalPathsGiveNormalRoots` | app/torrent_layout.py:255-262 | relative paths without leading or double slashes give normal roots |
| `SeedSide.AbnormalRootIsRefused` | app/executor.py:219-234 | a file stored at `/a` is mapped with root `/` and then refused |
| `MediaSide.PickSameDisk` | app/torrent_layout.py:188-193 | a file of the right size on the anchor's disk, or there is none |
| `MediaSide.PackVideo` | app/torrent_layout.py:211-221 | the library file of a pack's video is on the anchor's disk and has the known size |
| `MediaSide.MatchExtra` | app/torrent_layout.py:240-249 | the first neighbour of that name if there is one; otherwise one is taken if and only if exactly one neighbour has that extension and exact size, and it is that one |
| `MediaSide.MatchVideos` | app/torrent_layout.py:205-222 | one answer per video; a single video is the anchor |
| `MediaSide.Neighbours` | app/torrent_layout.py:226-227 | exactly the library files beside a matched video, on the anchor's disk |
| `MediaSide.MatchExtras` | app/torrent_layout.py:228-235 | in torrent order each extra gets the best of the neighbours not taken by a video or an earlier extra, by name first, then by extension, or none |
| `MediaSide.MapMediaSide` | app/torrent_layout.py:196-237 | one match per torrent file in order: the anchor or the pack lookup for a video, the best neighbour left for an extra; all on the anchor's disk, exact sizes for a pack, and no local file serving two extras or an extra and a video |
| `Scoring.WeakestVideo` | app/torrent_layout.py:316-319 | the minimum over the videos |
| `Scoring.ScoreIsBacked` | app/torrent_layout.py:343-367 | what a confidence of a scored video stands on: exact size, and a matching id for 0.9 |
| `Scoring.VerifyKeepsBacking` | app/torrent_layout.py:370-387 | the sampled check raises to 0.99 only with a clean answer and drops to 0 on a piece that differs |
| `Scoring.Evaluate` | app/torrent_layout.py:272-340 | the whole evaluation, aggregated columns included: the confidence is the weakest video's, one of four levels, each backed; no video is called right or wrong by its pieces unless its sampled check says so; the `.torrent` is fetched at most once and only for a video known by size alone |
| `Scoring.EvaluationIsSound` | app/torrent_layout.py:272-340 | for any matches and any `.torrent`, the mapping is kept, each confidence is backed and each piece verdict is that of the sampled check |
| `Scoring.PieceVerdictIff` | app/torrent_layout.py:304-387 | a video's pieces are called right, or wrong, if and only if the `.torrent` is looked at, the video is known by size alone and its sampled check is clean, or finds a difference |
| `Scoring.RecommendedIsPieceVerified` | app/review.py:47-61 | at the default thresholds a recommended torrent has, for every video, a local file of the exact size and a sampled check against its `.torrent` that came out clean |
| `Scoring.RecommendedIsHashed` | app/torrent_layout.py:370-387 | for each such video min(inner, 8) inner pieces were read from its file and all hash to what the torrent says; none if and only if no piece lies wholly inside it |
| `Scoring.VerifiedWithNothingHashed` | app/torrent_layout.py:370-387 | a video of three bytes that gets 0.99 and the flag with nothing hashed |
| `Matching.MatchContext.FetchTorrent` | app/matching.py:97-113 | what a fetch answers and remembers, exactly: a settled URL from memory, a rate limit or an unexpected error not remembered; the memory stays that of the bytes served |
| `Matching.FetchKeepsMemo` | app/matching.py:97-113 | every structure and info hash remembered is that of the bytes the tracker served for that URL, nothing is forgotten, the answer is what is remembered, and exactly the downloads that met a rate limit or crashed the parser are not remembered |
| `Matching.DownloadedOnce` | app/matching.py:97-113 | a URL whose download was settled is never downloaded again |
| `Matching.MemoDownloadsOnce` | app/matching.py:97-113 | rate limits aside, a URL was downloaded at most once if and only if no reply for it that was followed by another crashed the parser; to an outcome, at most once in any case |
| `Matching.DownloadsIff` | app/matching.py:97-113 | a fetch downloads if and only if a URL is given and every earlier download of it met the rate limit or crashed the parser |
| `Matching.DownloadedOnceIff` | app/matching.py:97-100 | in every state of every run, rate limits aside, one download per URL if and only if no reply that was followed by another crashed the parser |
| `MatchingExamples.CrashIsDownloadedAgain` | app/matching.py:105-112 | two fetches of a file whose name is a number download it twice, with no rate limit |
| `MatchingExamples.CrashIsDownloadedInEverySearch` | app/matching.py:97-112 | a run of two searches that meet it: each of them downloads it |
| `Matching.ParsedHasSpan` | app/matching.py:105-107 | after a successful parse the info hash can always be computed |
| `Matching.MatchContext.EvaluateOn` | app/matching.py:125-135 | the evaluation, the layout it leaves and the memory, exactly |
| `Matching.EvaluatedKeepsMemo` | app/matching.py:125-135 | at most one download, none when the layout already carries its `.torrent`; one that it carries afterwards is the one remembered for its link |
| `Matching.MatchContext.Examine` | app/matching.py:192-225 | what is stored for one torrent and the memory after it, exactly |
| `Matching.StoredIff` | app/matching.py:192-225 | nothing is stored if and only if, as far as the catalogue goes, the anchor alone is what is missing |
| `Matching.ExaminedIsExecutable` | app/matching.py:192-225 | a plausible candidate of several files has folder, piece length, paths and sizes of the `.torrent` read from its own link, and a local file for every video |
| `Matching.MatchContext.MatchFile` | app/matching.py:187-227 | the records stored, or the cause of an early end with the candidates rolled back, and exactly which packs are marked afterwards; on an early end every marked pack has its candidate if and only if it had and none lost is a pack |
| `Matching.SearchKeeps` | app/matching.py:187-227 | a search keeps the memory sound, stores only executable candidates, and marks exactly the packs it found candidates for, none twice |
| `Matching.LostPacksIff` | app/matching.py:187-227 | after an early end every marked pack has a stored candidate if and only if it had before and each torrent the search got through is no pack, was marked before, or lacks the anchor |
| `Matching.HarmlessIff` | app/matching.py:187-227 | a search finds candidates of packs unless every torrent it got through is of those kinds |
| `Matching.EveryPackStoredIff` | app/matching.py:187-267 | in a run every marked pack has its candidate if and only if no step so far lost one; what is lost stays lost |
| `Matching.MarkedPackIsSkipped` | app/matching.py:192-196 | a marked pack is passed over in every later search |
| `MatchingExamples.APackIsLost` | app/matching.py:187-227 | a search in which a pack is found, the next download raises, and the pack stays marked without a candidate |
| `Matching.HistoryKeepsMemo` | app/matching.py:241-255 | the remembered link is downloaded first unless it is settled, the current one is used only when the remembered one is settled without a `.torrent`; at most two downloads, and the result is what is remembered of the link used |
| `Matching.MatchContext.MatchFromHistory` | app/matching.py:230-267 | a pack already examined is not examined again; otherwise exactly the one record built on the `.torrent` fetched, or none |
| `Matching.HistoryIsExecutable` | app/matching.py:230-267 | that record has the structure of the `.torrent` remembered for the link used |
| `Matching.EveryRunHolds` | app/matching.py:187-267 | in every state of every run of searches and history lookups: the memory is sound, no pack is stored twice, and every plausible candidate of several files has the structure its link served |
| `Matching.EveryRecordIsMapped` | app/matching.py:119-184 | every candidate stored in a run has the folder and the rows of the mapping its step was given, and a plausible one has every video and the anchor matched |
| `Matching.CandidateIsOf` | app/matching.py:138-184 | a candidate stored from a `.torrent` has its folder, piece length, paths and sizes, in order |
| `Matching.ExecutionFindsTheStructure` | app/executor.py:96-113 | a candidate with positive confidence is never refused for a video, and for its folder only if its torrent has an empty name; the folder and the piece length used for the allowance are those parsed from the bytes its link served |
| `Matching.AllowanceAgrees` | app/executor.py:91-93 | the allowance computed from the stored rows is the one computed from the matches |
| `Matching.StoredCandidateSeeds` | app/executor.py:414-444 | a stored candidate of several files whose full check, against what its link served, passes, with files missing only where its rows say so, ends in `seeding` |
| `MatchingExamples.StoredExampleSeeds` | app/executor.py:414-444 | a run from the bytes of a `.torrent` to a stored candidate that meets every hypothesis of that result, an extra missing |
| `Handover.MapSeed` | app/torrent_layout.py:252-269 | the matches of the torrent side as a function of layout, anchor and rows |
| `Handover.SeedMapsAll` | app/matching.py:119-122 | that mapping is one a run can be given: one match per file of any layout, in order, not scored yet |
| `Handover.SeedCandidateAddableIff` | app/executor.py:203-240 | of all its checks the executor can refuse a plausible candidate of the torrent side only for an empty folder name, a missing link, an abnormal root, a file no longer on disk or a root outside the scope; the anchor, the videos, the suffix and every place agree |
| `Handover.MapMedia` | app/torrent_layout.py:196-237 | the matches of the library side: rows on the anchor's disk, of the exact size unless it is the single video, none for two extras or an extra and a video |
| `Handover.MediaRowFits` | app/executor.py:139-145 | every row of a plausible candidate of the library side has its library file on the anchor's disk and of the torrent's size, and every video has one |
| `Handover.NeverOnAnotherDisk` | app/executor.py:142-143 | so the check for another disk never fails, whatever the file system says |
| `Handover.LinksHaveTheSize` | app/executor.py:139-155 | and every planned link leads to a library file of exactly the size the torrent gives |
| `ReviewQueue.UserRejected` | app/review.py:84-100 | exactly the torrents of reviews of this file the user rejected |
| `ReviewQueue.BusyReviews` | app/review.py:125-131 | exactly the torrents held by a review of another file |
| `ReviewQueue.Best` | app/review.py:167-169 | a candidate of the highest confidence |
| `ReviewQueue.Queue.SupersedeActive` | app/review.py:64-81 | every ready review of the file, and no other, is rejected by the system |
| `ReviewQueue.Queue.CreateReview` | app/review.py:154-185 | the new state after a matching run, and whether a review was added |
| `ReviewQueue.Queue.Decide` | app/review.py:332-350 | status and decider are written without looking at the status |
| `ReviewQueue.Queue.CloseResolved` | app/review.py:362-408 | exactly the ready reviews whose file needs nothing and whose candidate has no job are closed |
| `ReviewQueue.QueuedIff` | app/review.py:154-185 | a review is queued if and only if some plausible candidate was not rejected by the user for the file and is not held for another |
| `ReviewQueue.QueuedIsBest` | app/review.py:165-185 | it is for the best such candidate, recommended exactly from the threshold on, and every older ready review of the file is closed |
| `ReviewQueue.SystemRejectionsDoNotBlock` | app/review.py:84-100 | superseding and closing leave the user's rejections as they were |
| `ReviewQueue.StepKeepsInv` | app/review.py:64-408 | every step keeps the queue invariants |
| `ReviewQueue.EveryRunKeepsInv` | app/review.py:64-408 | in every state of every run: one ready review per file, one file per held torrent, nothing ready that the user rejected |
| `ReviewQueue.RejectionLasts` | app/review.py:345-350 | a rejection by the user stays for the rest of the run |
| `ReviewQueue.NeverQueuedAgain` | app/review.py:84-100 | after it no later state has that torrent ready for that file |
| `ReviewQueue.UnguardedApprovalBreaksTheQueue` | app/review.py:332-342 | a run of ordinary steps after which approving a rejected review holds one torrent for two files |
| `ReviewQueue.ApprovalSafeIff` | app/review.py:332-342 | approving any review keeps the queue invariants if and only if no review of another file holds its torrent |
| `ReviewQueue.UnguardedRejectionBreaksTheQueue` | app/review.py:345-350 | a run of ordinary steps after which rejecting a superseded review leaves that torrent rejected and ready for one file |
| `ReviewQueue.RejectionSafeIff` | app/review.py:345-350 | rejecting any review keeps them if and only if the system rejects or no other ready review is of that torrent for that file |
| `VerificationGate.Gate.RequestApproval` | app/review.py:260-280 | refused while verifying, else one more queued check named by the review; live checks are untouched |
| `VerificationGate.Gate.Cancel` | app/full_check.py:453-457 | marks a live check, nothing else |
| `VerificationGate.Gate.BeginRun` | app/full_check.py:364-373 | a check cancelled in the queue never starts |
| `VerificationGate.Gate.FinishRun` | app/full_check.py:387-417 | what each way out writes on check and review |
| `VerificationGate.Gate.ConcludeRun` | app/review.py:304-309 | executes only a review that is still ready, guard and approval being one step |
| `VerificationGate.GuardThenApprove` | app/review.py:304-309 | the guard and the approval taken apart give that step when nothing comes in between |
| `VerificationGate.LateApprovalIff` | app/review.py:304-309 | with steps in between the worker acts on a ready review if and only if none of them decided it |
| `VerificationGate.Gate.Restart` | app/review.py:321-329 | the registry is empty and exactly the interrupted verifications are reset |
| `VerificationGate.EveryRunKeepsInv` | app/review.py:260-329 | the gate invariants hold under every interleaving |
| `VerificationGate.NothingExecutesUnverified` | app/review.py:283-318 | nothing executes without a passed verdict for its candidate; on the worker path only a ready review |
| `VerificationGate.NoReviewIsStuck` | app/review.py:283-329 | a review that says `verifying` has the live check it names |
| `VerificationGate.OneLiveCheckPerReview` | app/review.py:268-280 | at most one live check per review in runs whose steps leave reviews being verified alone |
| `VerificationGate.LiveNamedIff` | app/review.py:268-280 | a step keeps every live check named by its review if and only if it leaves reviews being verified alone |
| `VerificationGate.LiveNamedThroughoutIff` | app/review.py:268-280 | over a whole run every live check stays named if and only if every step does |
| `VerificationGate.DisturbedMeansTwo` | app/review.py:260-280 | any other step lets the next request start a second check beside the live one |
| `VerificationGate.AutomaticPathExecutesARejectedReview` | app/review.py:439-443 | a reachable state where the automatic execution executes what the user just rejected |
| `VerificationGate.AutomaticActsOnReadyIff` | app/review.py:423-447 | in every run the automatic execution acts on a ready review if and only if no step decided it since it was listed as recommended |
| `VerificationGate.AutomaticWasListed` | app/review.py:430-443 | and whatever it executes was listed before |
| `VerificationGate.AutomaticPathAllowsTwoChecks` | app/review.py:450-464 | a reachable state with two live checks of one review |
| `VerificationGate.LateErrorAllowsTwoChecks` | app/full_check.py:398-414 | another, through an error after the verdict |
| `VerificationGate.SubmitThenMark` | app/review.py:274-279 | the two halves of a request are the one step when nothing comes in between |
| `VerificationGate.MarkIsSafeIff` | app/review.py:274-279 | the late write is safe if and only if the check is still live |
| `VerificationGate.FastWorkerLeavesReviewStuck` | app/review.py:274-279 | a worker that fails in between leaves the review stuck |
| `VerificationGate.StuckStays` | app/review.py:260-280 | and no ordinary step frees it before a restart |
| `RateLimiter.Limiter.Wait` | app/adapters/tracker/base.py:150-159 | eviction, sleep asked for and appended time; a limit below one fails |
| `RateLimiter.KeptIsLastWindow` | app/adapters/tracker/base.py:150-154 | after the eviction the queue is exactly the requests of the last 60 seconds |
| `RateLimiter.AskIsEarliest` | app/adapters/tracker/base.py:155-158 | the sleep is exactly what the whole history needs, no less and no more |
| `RateLimiter.TurnKeepsInv` | app/adapters/tracker/base.py:150-159 | a call at an advancing clock keeps the bound and the queue length |
| `RateLimiter.RunKeepsInv` | app/adapters/tracker/base.py:150-159 | so does every run, and each call is one request |
| `RateLimiter.BoundedWindows` | app/adapters/tracker/base.py:142-144 | the spacing of max + 1 requests bounds every 60-second window |
| `RateLimiter.AtMostMaxPerWindow` | app/adapters/tracker/base.py:142-144 | in every run no 60 seconds hold more than `max_per_min` requests, and the queue has at most one more |
| `RateLimiter.NoLimitNoRequest` | app/adapters/tracker/base.py:155-156 | a limit below one lets nothing through |
| `RateLimiter.StandingClockBreaksTheBound` | app/adapters/tracker/base.py:152-159 | two calls in one instant break the bound |
| `RateLimiter.SafeIff` | app/adapters/tracker/base.py:150-159 | under a clock that never goes back a call is safe if and only if the queue is not overfull or its max-th last entry is a window old |
| `RateLimiter.WindowsIff` | app/adapters/tracker/base.py:142-144 | every 60-second window holds at most the limit if and only if any max + 1 requests span a window |
| `RateLimiter.TurnBoundedIff` | app/adapters/tracker/base.py:150-159 | one call under a clock that never goes back keeps the bound if and only if the queue it finds is not overfull or it returns a window after its max-th last entry |
| `RateLimiter.PromiseIff` | app/adapters/tracker/base.py:142-159 | in every run under such a clock no 60 seconds hold more than the limit if and only if every call is of that kind |
| `RateLimiter.RetryWait` | app/adapters/tracker/base.py:342-355 | the wait is between one second and the maximum, and the server's own when that is in range |
| `RateLimiter.Get` | app/adapters/tracker/base.py:357-388 | every attempt, retries included, goes through the limiter; which reply decides, a login redirect and an error status failing the call, and the waits in between |
| `Indexer.BulkUpsert` | app/db_utils.py:18-23 | chunked writes are the fold of single-row upserts, whatever the chunk size |
| `Indexer.UpsertAllAt` | app/db_utils.py:18-23 | per key the last row counts, and identifiers once given stay |
| `Indexer.UpsertAllIds` | app/db_utils.py:18-23 | identifiers stay unique and none is lost |
| `Indexer.ResolveSeedFile` | app/torrent_indexer.py:50-64 | the first disk that contains the path and knows the file, or none does |
| `Indexer.ListFileRows` | app/torrent_indexer.py:179-191 | one row per listed file, in order, under the identifier of its torrent |
| `Indexer.Database.Store` | app/torrent_indexer.py:131-198 | both tables after the two writes |
| `Indexer.StaleList` | app/torrent_indexer.py:99-106 | the identifiers of the client's torrents that are no longer listed |
| `Indexer.DropDrop` | app/torrent_indexer.py:107-115 | deleting in chunks is deleting at once |
| `Indexer.Database.PruneMissing` | app/torrent_indexer.py:89-128 | all three tables after the pruning, whatever the chunk size |
| `Indexer.Database.Index` | app/torrent_indexer.py:67-86 | storing, then pruning |
| `Indexer.FileRowOf` | app/torrent_indexer.py:179-191 | the rows written for a torrent are its files; none is written for a torrent not listed |
| `Indexer.IndexedTorrents` | app/torrent_indexer.py:131-198 | the client's torrents are exactly the listed ones with their last data, other clients' are unchanged, identifiers stay |
| `Indexer.IndexedFile` | app/torrent_indexer.py:116-121 | a file row of the client stays if and only if it is listed or was written under this run's identifier before |
| `Indexer.IndexIsMirror` | app/torrent_indexer.py:67-128 | under a fresh run identifier the client's torrents and files are those it listed, whatever was stored; other clients are untouched |
| `Indexer.IndexKeepsSound` | app/torrent_indexer.py:107-115 | no file row and no seed job points to a deleted torrent |
| `Indexer.JobsFollow` | app/torrent_indexer.py:109-111 | a seed job's pointer is cleared exactly when its torrent leaves |
| `Indexer.OldRunKeepsLostFiles` | app/torrent_indexer.py:116-121 | with a run identifier used before, a lost file stays |
| `FileChanges.Compare` | app/file_changes.py:99-121 | exactly the rows deserved, one per file, in any order of the dictionaries |
| `FileChanges.ChangeLog.Record` | app/file_changes.py:84-132 | snapshot, log and count after a recording; none without a snapshot |
| `FileChanges.OneRowIff` | app/file_changes.py:76-121 | a file has a row if and only if it is not excluded and appeared, vanished, or changed state or stopped |
| `FileChanges.ReplayOne` | app/file_changes.py:99-121 | the rows of one recording take the old files and states to the new ones |
| `FileChanges.FaithfulIff` | app/file_changes.py:87-93 | they do so if and only if there was a snapshot or there is nothing to tell |
| `FileChanges.AfterAnEmptyScanNothingIsTold` | app/file_changes.py:87-93 | a file that appears after an empty scan gets no row |
| `FileChanges.CutKeepsNewest` | app/file_changes.py:125-127 | exactly the newest run identifiers are at or above the cut |
| `FileChanges.PruneKeepsNewest` | app/file_changes.py:125-129 | at most 30 runs keep rows, the newest, and they keep all of them |
| `FileChanges.LogTellsSince` | app/file_changes.py:84-132 | for any run still covered by the log, the rows since it take its snapshot to the latest files and states |
| `FileChanges.WholeLogTells` | app/file_changes.py:84-132 | up to 30 runs the whole log, nothing pruned, takes the baseline to the latest snapshot |
| `FileChanges.EveryRunTells` | app/file_changes.py:84-132 | the rows of any number of recordings take the baseline to the latest snapshot |
| `FileChanges.ToldThroughoutIff` | app/file_changes.py:84-132 | over any scans, empty ones included, the rows tell every state of the run if and only if each recording had a snapshot to compare with or nothing to tell |
| `FileChanges.AtMostThirtyRuns` | app/file_changes.py:125-129 | after any sequence of recordings at most 30 runs have rows |
| `FileTree.ChildOf` | frontend/src/components/FileTree.tsx:49-54 | the child for a segment, new and empty if there was none; the rest of the tree keeps its shape |
| `FileTree.TakeIn` | frontend/src/components/FileTree.tsx:55-57 | totals and file of one node after one more file under it |
| `FileTree.AddFile` | frontend/src/components/FileTree.tsx:42-60 | after one file every node holds the totals of all files so far |
| `FileTree.BuildTree` | frontend/src/components/FileTree.tsx:40-62 | a tree of distinct nodes, one per prefix of a path, each with the size and number of the files under it and the last file exactly there |
| `FileTree.JoinSplit` | frontend/src/components/FileTree.tsx:43-48 | joining the segments gives the path back |
| `FileTree.RootIsTotal` | frontend/src/components/FileTree.tsx:44-46 | the root counts every file |
| `FileTree.LastAtIsLast` | frontend/src/components/FileTree.tsx:57 | of several files at one path the last is shown |
| `FileTree.UnderIsBelowPlusOwn` | frontend/src/components/FileTree.tsx:47-59 | what is under a path is what is under its children plus the files ending there |
| `FileTree.NodeIsChildrenPlusOwn` | frontend/src/components/FileTree.tsx:26-33 | the same for the counters of the finished tree, with the root as grand total, also with duplicates or a path that is file and folder |
| `FileTree.EveryFileHasItsNode` | frontend/src/components/FileTree.tsx:47-59 | every file has a node under its own path |

## Left out

- VerificationGate.OneLiveCheckPerReview: holds only while the automatic execution and the handler of a late error leave a review being verified alone; `LiveNamedThroughoutIff` says that this is exactly what is needed.
- VerificationGate.Gate.ConcludeRun: guard and approval are one step, as no other thread is modelled between them, and the fields that report the execution are dropped; `LateApprovalIff` says what other steps in between would change.
- SeedJobs.SeedJob.Retry: starting over ends with the review to execute again; what executing it does is said by `ExecuteMediaToTorrent` and `ExecuteTorrentToClient`.
- FileChanges.WholeLogTells: up to 30 recordings, as older rows are pruned; `EveryRunTells` covers any number of recordings by the rows they wrote.
- RateLimiter.AtMostMaxPerWindow: needs a clock that advances between calls; `PromiseIff` covers a clock that only never goes back.
- Indexer.IndexIsMirror: needs a run identifier no stored file row carries, which a new run has; `IndexedFile` says what happens without it.
- FileChanges.LogTellsSince: exclusions stay the same and every scan finds some file; `ToldThroughoutIff` covers empty scans.
- Tolerance.PassedVerdictSeeds: the client is taken to report the whole failing pieces as left, as a recheck of the same files finds them.
- HTTP clients, torrent client adapters, TMDB, Radarr/Sonarr, image hosts: foreign calls, taken as answers.
- SQLAlchemy, SQLite and migrations: tables are maps and sequences, commits are atomic; cascades of deletions of disks, clients or candidates are not modelled.
- guessit, mediainfo, fnmatch, `realpath`, SHA-1, UTF-8 decoding: parameters of the model.
- Interpreter limits of the bencode reader (digits of an int, recursion depth).
- Negative file lengths and a wrong number of piece hashes: the parser accepts them, and so does `Metainfo`; the sweep is proved for tables with non-negative lengths and any number of hashes, and the sampled check of an entry outside the stream is a parameter of `Scoring`.
- Files that change while a check runs: the disk is stable, read faults included.
- The location label, progress callbacks, names and hashes carried along in a check result.
- Directories made by `os.makedirs`, error texts, and a commit that fails inside an exception handler. After a failed commit the handler reads `seed_job.info_hash` (app/executor.py:190); that read is taken to work, though the session may refuse it before anything is unlinked.
- The single-file execution path without file rows (app/executor.py:266-411): it has no rollback.
- `approve_all`, manual checks outside a review, the setting that turns verification off, and which finished checks the registry drops first: `VerificationGate` lets it drop any.
- A local file may serve two videos of a pack; `MediaSide` promises exclusiveness for extras only, as the code does.
- `find_candidates` and the run loops of app/matching.py with their freshness rule: they would add easy members.
- The counts of app/torrent_indexer.py:198 and its warnings; `added_at`, which neither write touches.
- The log does not record a stopped flag that changes together with the state, so replaying gives files and states, not flags.
- NaN and infinities in a `Retry-After` header, and rounding of floating-point clocks.
- `app/response_cache.py`, pipeline, scheduler, run progress, settings, API, authentication and the rest of the frontend.
