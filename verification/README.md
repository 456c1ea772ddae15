# EnvMarket: a verified model

EnvMarket is a market for coding environments. Sellers package an environment as a byte-exact archive,
buyers verify it against what is on chain, a harness runs model episodes in it and grades them, and
jurors vote on disputes by commit and reveal. This project models the parts of those programs whose
correctness is not visible from one function, and proves what they promise over all inputs and all runs.

| files | what they model |
|---|---|
| `Lex`, `Base` | byte order, sorting, permutations, padding |
| `TarPath`, `TarHeader`, `TarWriter`, `TarReader`, `TarLaws`, `TarLayout`, `TarReading` | the ustar codec of `tar.ts` and `digest.py`, writer and reader, the round trip between them, and both said over the bytes |
| `TarDir`, `TarDirLaws`, `DigestPy`, `TarExtract` | archiving a directory in both languages, and extraction |
| `Delivery`, `DeliveryLaws`, `DeliveryContents`, `DeliveryChecks` | seller packaging against buyer verification, what is shipped, and what any passing delivery fulfils |
| `JurorState`, `Juror`, `JurorChain`, `JurorProtocol`, `JurorSafety`, `JurorRuns`, `JurorTheorems`, `JurorDecisions`, `JurorProgress` | the crash-safe commit-reveal juror as a transition system |
| `Episode`, `Harness` | the episode machine and the harness that drives it |
| `Workspace`, `Actions`, `Grading`, `GradingLaws` | the path policy, the write action, the graded tree, scoring and re-grading |
| `Json`, `JsonParser`, `JsonLaws`, `JsonText`, `JsonScanner`, `Screening` | canonical printing, the object scanner, the copy screen |
| `Merkle`, `Masks` | the commitment tree and task masks |
| `TokenCaps`, `EnvServer`, `Runs`, `Report`, `NetDeny` | token accounting, request matching, run summaries, rounding, the seccomp filter |

How the juror is modelled. A class holds the state file; it remembers every content the file ever had.
The methods of the store and of the process are proved to do exactly what an `Outcome` says: the new
memory, and the list of contents written on the way. `JurorProtocol` makes steps of those outcomes. A step
may stop after any number of the writes, which is the process being killed at that instruction; the
network may deliver a transaction at any later time, any number of times, or never; the chain moves on
its own. A schedule is any list of steps, and the theorems hold for every schedule. Nothing is assumed
of the hash.

Names. Archive and workspace paths are their UTF-8 bytes, JSON text is UTF-16 code units. Hashes,
patterns, clocks, model output, test results and the order in which a directory is listed are parameters.

Where the code and its description differ, the model follows the code, and a lemma gives the exact condition.

- Extraction is promised for every canonical archive. The guard against leaving the destination tests whether
  a relative path begins with two dots, so a harmless top-level name such as `..a` is refused
  (`TarExtract.ExtractThenArchive`, `TarExtract.GuardExactly`, `TarExtract.DottedNameRefused`). That test, the
  link test and the test for existing files run entry by entry, after earlier entries are on disk
  (`TarExtract.LeftBehind`), although the whole archive is said to be validated first.
- The two archive writers, meant to be interchangeable, differ on names with a backslash or a drive letter
  (`DigestPy.WritersAgree`, `DigestPy.WritersDisagree`).
- A call whose own limit is below 256 tokens is refused whatever the caps leave (`TokenCaps.RefusedExactly`,
  `TokenCaps.SmallLimitRefused`).
- Some writes the episode accepts are not seen by grading: `.pyc` files, and files below `.pytest_cache`
  (`Actions.WriteCountsExactly`, `Actions.AcceptedAndIgnored`).

## Model

| member | source | states |
|---|---|---|
| JurorTheorems.OneCommitmentPerRound | services/jurors/src/commit.ts:24-46 | In every schedule of crashes, delays, repeats and losses, all commitments ever handed to the network for a (dispute, round) are one value, and the state file holds the verdict and salt that open it |
| JurorTheorems.RevealsOpenCommitments | services/jurors/src/juror.ts:329-342 | Every reveal ever sent for a round opens every commitment ever sent for it |
| JurorTheorems.RevealIsNeverRefused | services/jurors/src/juror.ts:331-339 | Neither guard of the reveal phase (no stored secret, stored secret does not match the chain) fires in any schedule |
| JurorTheorems.SecretStays | services/jurors/src/state.ts:59-80 | Once a commitment was sent, every later state of the file holds the same verdict, salt, commitment and decision for it |
| JurorTheorems.RestartReveals | services/jurors/src/juror.ts:204-249 | After any schedule, if this juror's commitment is on chain and the reveal window is open, killing and restarting the process and letting one step of each kind happen ends with the vote revealed and the commitment unchanged |
| JurorTheorems.PhaseIsTheContracts | services/jurors/src/juror.ts:228-239 | On a fresh snapshot the juror picks the commit phase exactly when the contract would accept some commitment, and the reveal phase exactly when it would accept an opening |
| JurorTheorems.PublishedOnlyAfterReveal | services/jurors/src/juror.ts:350-372 | A rationale goes public only when the own vote is revealed on chain or the dispute is settled, and it is for the verdict the stored commitment binds |
| JurorTheorems.NoDisputeLost | services/jurors/src/juror.ts:172-200 | In every schedule, a dispute is in the durable store when a panel was drawn for it, or it was opened over a false description, in a block from the start block up to the durable cursor |
| JurorProgress.EveryDisputeFound | services/jurors/src/juror.ts:172-200 | Every dispute over a false description that the chain ever shows has its opening in the log, and is in the durable store once the cursor has come to that block |
| JurorTheorems.CursorNeverBack | services/jurors/src/state.ts:111-115 | The durable cursor never decreases, no stored dispute is forgotten, and a dispute marked resolved is over on chain |
| JurorDecisions.VotesAreDeliberated | services/jurors/src/juror.ts:272-343 | In every schedule, every commitment handed to the network is the hash of a verdict that one of the juror's own deliberations on that round came back with, and every reveal gives such a verdict |
| JurorDecisions.DecisionsAreDeliberated | services/jurors/src/juror.ts:299-325 | Every decision in the file is the verdict of a deliberation on that very dispute and round, at a step where it was running |
| JurorDecisions.DecisionStays | services/jurors/src/juror.ts:321-323 | A decision in the file is never replaced, whatever later deliberations come to |
| JurorDecisions.StepDecides | services/jurors/src/juror.ts:272-372 | No step touches a stored decision, except the end of a deliberation on an open round, which stores the verdict that came back |
| JurorProgress.RestartDecides | services/jurors/src/juror.ts:272-323 | After any schedule, with the commit window open and nothing decided: kill, restart, and the next verdict to come back is in the file |
| JurorProgress.RestartCommits | services/jurors/src/juror.ts:272-293 | After any schedule, with the commit window open and a decision stored: kill, restart, send, and the chain holds the stored commitment, or one to the decision under a fresh salt (unless that hash is the zero word) |
| JurorProgress.RestartPublishes | services/jurors/src/juror.ts:350-372 | After any schedule, with the own vote revealed on chain and its rationale not out: kill and restart, and it is released and marked so in the file |
| JurorProgress.ReleasesOnlyNew | services/jurors/src/juror.ts:350-352 | Whatever stretch releases a rationale, its record has a decision, a verdict and a commitment and is not marked published |
| JurorProgress.RestartFinishes | services/jurors/src/juror.ts:374-391 | After any schedule, with the dispute settled: kill and restart, and every unpublished rationale of this juror is released and the dispute marked resolved in the file |
| JurorProgress.ScanAdvances | services/jurors/src/juror.ts:172-200 | A running process behind the head moves the durable cursor by one full chunk or to the head, with every dispute announced in between stored |
| JurorRuns.StepKeeps | services/jurors/src/juror.ts:272-372 | Every step, a stretch killed after any number of its writes included, keeps the invariant; the file keeps every secret, the chain everything that cannot be undone |
| JurorRuns.ResumeKeeps | services/jurors/src/juror.ts:158-169 | A stretch of process code between two awaits, finished or killed after k writes of the state file, keeps the invariant |
| JurorRuns.WorkOk | services/jurors/src/juror.ts:204-249 | Whatever a stretch does, each content it gives the file is sound and keeps all secrets, and all follow-up work is backed by the file |
| JurorRuns.LandsInItsRound | contracts/src/EnvMarket.sol:607 | A commit or reveal, which carries no round, can only take effect in the round it was meant for, because a juror of round 1 is not drawn for round 2 |
| JurorRuns.DeliverKeeps | contracts/src/EnvMarket.sol:642-667 | Executing one of this juror's transactions at any time keeps the invariant |
| JurorRuns.RevealOk | services/jurors/src/juror.ts:329-340 | When what is on chain can be opened from memory, the reveal phase sends that opening |
| JurorRuns.CommitOk | services/jurors/src/juror.ts:272-286 | The commitment the commit phase hands to the network is already backed by the file |
| JurorRuns.ScanOk | services/jurors/src/juror.ts:182-197 | Handling a fetched chunk, at whatever later time, extends coverage without a gap |
| JurorSafety.PrepareOk | services/jurors/src/commit.ts:36-45 | Preparing a commitment never changes a complete secret, and whatever it writes is complete and matches the hash |
| JurorSafety.OutcomeThen | services/jurors/src/state.ts:141-150 | Operations compose: if each leaves only good file contents behind, so do both in a row |
| JurorChain.MoveKeeps | contracts/src/EnvMarket.sol:579-639 | No call of anybody else removes a seat, a commitment, a reveal or a resolution |
| JurorChain.PastStays | services/jurors/src/juror.ts:176-181 | What was announced in complete blocks never changes, so a late log answer is still right |
| Juror.JurorProcess.ScanLogs | services/jurors/src/juror.ts:172-200 | The scan terminates at the head, or after the chunk during which the process is told to stop; its chunks tile the blocks after the cursor without gap or overlap, none longer than the limit; every dispute announced in them is stored, in memory and in the file |
| Juror.JurorProcess.HandleEvents | services/jurors/src/juror.ts:182-196 | Each announced dispute gets a record, written to the file when new |
| Juror.JurorProcess.CommitPhase | services/jurors/src/juror.ts:272-293 | Starts a deliberation exactly when nothing is decided, none is running for the round and the last attempt is a retry interval ago; hands out a commitment exactly when something is decided, after preparing the secret durably; states every write of the file |
| Juror.JurorProcess.DecisionDone | services/jurors/src/juror.ts:280-323 | Ends a deliberation: when its round has no verdict and no decision, the one that came back becomes the decision, in memory and in the file; otherwise every record keeps its vote |
| Juror.DecisionStored | services/jurors/src/juror.ts:321-323 | With neither verdict nor decision stored, the round's record becomes the old one with that verdict as decision, no other record changes, and the last write of the file holds it |
| Juror.DecisionIgnored | services/jurors/src/juror.ts:321-323 | With no verdict back, or a verdict or decision already stored, no record changes, in memory or in any write |
| Juror.JurorProcess.RevealPhase | services/jurors/src/juror.ts:329-340 | Sends the stored opening exactly when it matches the seat's commitment |
| Juror.JurorProcess.MayPublish | services/jurors/src/juror.ts:350-352 | A rationale may go out only for a complete, not yet published record |
| Juror.JurorProcess.CommitSent | services/jurors/src/juror.ts:286 | The transaction hash is recorded and saved |
| Juror.JurorProcess.CommitConfirmed | services/jurors/src/juror.ts:287-289 | The confirmation is recorded and saved |
| Juror.JurorProcess.RevealSent | services/jurors/src/juror.ts:340 | The transaction hash is recorded and saved |
| Juror.JurorProcess.RevealConfirmed | services/jurors/src/juror.ts:341-343 | The confirmation is recorded and saved |
| Juror.JurorProcess.Published | services/jurors/src/juror.ts:371 | The released rationale is recorded and saved |
| Juror.TilesPush | services/jurors/src/juror.ts:173-199 | Chunks that follow one another tile the whole range |
| Juror.ScanFinds | services/jurors/src/juror.ts:174-198 | One chunk read right after the cursor carries the scan on to its end, with every dispute announced there |
| JurorState.JurorStore.Prepare | services/jurors/src/commit.ts:29-46 | Returns the secret in the record when it is complete, else the verdict, the fresh salt and their commitment; writes the file before returning when the secret is new, and not at all when it is complete |
| JurorState.JurorStore.constructor | services/jurors/src/state.ts:87-101 | Loads the file, or writes the initial state when there is none |
| JurorState.JurorStore.SetCursor | services/jurors/src/state.ts:111-115 | Moves the cursor forward only, and saves |
| JurorState.JurorStore.EnsureDisputeRecord | services/jurors/src/state.ts:125-132 | A new dispute is added and saved; a known one is left alone |
| JurorState.JurorStore.Round | services/jurors/src/state.ts:134-139 | A new round exists in memory only until the next save |
| JurorState.JurorStore.UpdateRound | services/jurors/src/state.ts:142-146 | Mutates one record and saves it |
| JurorState.StateFile.WriteFileAtomic | services/jurors/src/state.ts:59-80 | The whole file is replaced at once |
| JurorState.Prepared | services/jurors/src/commit.ts:36-45 | A complete secret stands as it is; an incomplete one becomes the given verdict, the fresh salt and their commitment |
| JurorState.PutThenGet | services/jurors/src/state.ts:134-146 | Changing one round's record changes no other record, nor the cursor |
| JurorState.NothingStored | services/jurors/src/state.ts:134-139 | A round not heard of has no decision, no secret, no transaction and no mark |
| TarPath.NormalizeExactly | packages/shared/src/tar.ts:72-86 | Normalisation accepts exactly the safe paths, with or without one trailing slash, and gives the path without it |
| TarPath.SplitJoin | packages/shared/src/tar.ts:137-139 | Splitting undoes joining of segments |
| TarPath.AncestorsAreSegmentPrefixes | packages/shared/src/tar.ts:136-144 | The segment-wise prefixes the programs enumerate are exactly the ancestor directories |
| Lex.CompareBytes | packages/shared/src/tar.ts:88-92 | The loop returns the sign of the lexicographic byte order |
| Lex.LessExactly | packages/shared/src/tar.ts:88-92 | One path sorts before another exactly when they agree up to a place where the first ends or has the smaller byte |
| Lex.SortedUnique | packages/shared/src/tar.ts:145-147 | A strictly sorted list is determined by its elements, so the library sort has one possible result |
| TarHeader.OctalLength | harness/envmarket_coding/envmarket_coding/digest.py:35-40 | A value has at most n octal digits exactly when it is below 8^n |
| TarHeader.OctRoundTrip | harness/envmarket_coding/envmarket_coding/digest.py:35-40 | An octal field parses back to its value |
| TarHeader.ShiftRejoins | harness/envmarket_coding/envmarket_coding/digest.py:47-53 | The prefix split is undone by joining prefix and name; the name fits 100 bytes |
| TarHeader.SplitsExactly | harness/envmarket_coding/envmarket_coding/digest.py:43-56 | The split succeeds exactly for ASCII names of at most 100 bytes, or with a slash that has at most 155 bytes before it and at most 100 after |
| TarHeader.HeaderAcceptsExactly | harness/envmarket_coding/envmarket_coding/digest.py:43-63 | A header exists exactly for such names and sizes below 8^11 |
| TarHeader.HeaderRoundTrip | harness/envmarket_coding/envmarket_coding/digest.py:59-78 | Every header the encoder makes has magic and checksum right and decodes to the same name, kind, permission bits and size |
| TarHeader.EncodeHeader | harness/envmarket_coding/envmarket_coding/digest.py:59-78 | The program writing fields into a zeroed 512-byte buffer computes the header |
| TarHeader.SplitNameLoop | harness/envmarket_coding/envmarket_coding/digest.py:43-56 | The loop computes the split |
| TarWriter.CollectInputs | packages/shared/src/tar.ts:118-134 | The first pass over the inputs, duplicates and errors included |
| TarWriter.AddParents | packages/shared/src/tar.ts:135-144 | The second pass fails exactly when a file is used as a directory, and otherwise closes the tree under parents |
| TarWriter.WriteTarProgram | packages/shared/src/tar.ts:117-172 | The two passes, the sort, the chunks and the copy at a moving offset together give the archive |
| TarLayout.WrittenBytes | packages/shared/src/tar.ts:117-172 | Every byte the writer puts out: the entries of the tree in ascending order of their paths, each with header, data and zeros up to the next block, then 1024 zeros |
| TarLayout.HeaderIs | harness/envmarket_coding/envmarket_coding/digest.py:59-78 | Every byte of a header: name and prefix, mode 000755 for directories and executables and 000644 for other files, with space and NUL, zero owner, group, times and devices, size as eleven octal digits, checksum, type flag 0 or 5, no link name, the magic with version 00, and zeros elsewhere |
| TarLayout.NumberHeld | harness/envmarket_coding/envmarket_coding/digest.py:35-40 | An octal field holds the digits of its value, most significant first, with leading zeros, and a space |
| TarLayout.SplitParts | harness/envmarket_coding/envmarket_coding/digest.py:43-56 | A name of at most 100 bytes stands whole; a longer one is cut at its first slash that leaves at most 100 bytes |
| TarLayout.TreeIs | packages/shared/src/tar.ts:117-145 | The tree written: the given paths and every directory above them; a path is the file given for it with its contents and execute bit, otherwise a directory |
| TarLayout.ArchiveIs | harness/envmarket_coding/envmarket_coding/digest.py:81-108 | The same bytes for the archive of any proper tree, which is what the second writer makes |
| TarReader.ReadTarProgram | packages/shared/src/tar.ts:181-250 | The reader's loop and its parent check give the specified entries or error |
| TarReader.ReadPaths | packages/shared/src/tar.ts:228-236 | Every entry read has a safe path not seen before; directories carry no data |
| TarReading.ReadsExactly | packages/shared/src/tar.ts:181-250 | For any bytes, whoever wrote them: the reader returns a list of entries exactly when these stand one behind the other from the first byte, with distinct paths, up to a block of zeros, and none of the files stands above another entry |
| TarReading.HeaderExactly | packages/shared/src/tar.ts:186-236 | A header is taken exactly when its magic is right, its checksum field holds the sum of the bytes with spaces in its place, its size is octal, its flag is that of a file or directory, and its name normalises to a path not seen; the mode is kept modulo 07777 |
| TarReading.StepExactly | packages/shared/src/tar.ts:186-244 | The next entry is read exactly when such a header and all its data stand there |
| TarLaws.RoundTrip | packages/shared/src/tar.ts:117-250 | For every accepted input the reader returns exactly the sorted, parent-closed, mode-normalised tree, and writing that again gives the same bytes |
| TarLaws.ReadTarBytes | packages/shared/src/tar.ts:181-250 | Reading the archive of any proper tree gives its entries in order |
| TarLaws.CanonicalExactly | agents/src/buyer/verify.ts:164-165 | The canonical check accepts exactly the bytes the writer can produce |
| TarLaws.WriterInjective | packages/shared/src/tar.ts:117-172 | Equal archives come from equal trees |
| TarLaws.CollectAccepts | packages/shared/src/tar.ts:119-134 | The first pass accepts exactly the bags of valid, consistent inputs |
| TarLaws.WriterAccepts | packages/shared/src/tar.ts:117-172 | The writer accepts exactly consistent inputs with no file where a directory is needed, whose entries and implied parents all fit the header |
| TarLaws.OrderIrrelevant | packages/shared/src/tar.ts:116-134 | Acceptance and bytes are the same for every order of the inputs |
| TarDir.WalkLists | packages/shared/src/tar.ts:351-384 | The walk succeeds exactly when no kept place is a link or special file, and then lists each kept place once |
| TarDir.WalkProgram | packages/shared/src/tar.ts:355-381 | The recursive walk pushing onto a list computes that listing |
| TarDirLaws.DirArchive | packages/shared/src/tar.ts:387-389 | Archiving a directory fails when a kept place is a link, special or unportable, and otherwise gives the archive of the kept tree |
| TarDirLaws.KeptExactly | packages/shared/src/tar.ts:351-381 | A place is in the archived tree exactly when neither it nor a directory above it is excluded, by its name or by its path and kind; a file with its contents and execute bit |
| TarDirLaws.DirAccepts | packages/shared/src/tar.ts:387-389 | Archiving a directory succeeds exactly when all kept places are plain and portable and fit the header |
| DigestPy.PyArchive | harness/envmarket_coding/envmarket_coding/digest.py:81-108 | The second writer, walk-then-sort without path validation, gives the archive of the kept tree whenever all kept places are plain |
| DigestPy.PyAccepts | harness/envmarket_coding/envmarket_coding/digest.py:81-108 | The second writer succeeds exactly when no kept place is a link or special file and every kept entry is ASCII, fits 100 bytes of name after at most 155 of prefix, and has fewer than 8^11 bytes |
| DigestPy.WritersAgree | harness/envmarket_coding/envmarket_coding/digest.py:81-108 | The two writers agree on a directory exactly when the second has one of those reasons to fail, or no kept path has a backslash or a drive letter |
| DigestPy.WritersDisagree | packages/shared/src/tar.ts:75 | A directory with one file named with a backslash: the second writer archives it, the first refuses |
| DigestPy.SerializeLoop | harness/envmarket_coding/envmarket_coding/digest.py:102-108 | The loop appending headers and padded data computes the serialisation |
| TarExtract.ExtractedPathsInside | packages/shared/src/tar.ts:293-298 | Every path the reader lets through resolves strictly under the destination |
| TarExtract.ExtractKeeps | packages/shared/src/tar.ts:299-308 | Extraction never replaces what is there |
| TarExtract.ExtractThenArchive | packages/shared/src/tar.ts:283-389 | Extracting a canonical archive into an empty directory succeeds exactly when no path in it begins with two dots; archiving the directory then gives the same bytes exactly when no name is excluded |
| TarExtract.GuardExactly | packages/shared/src/tar.ts:293-298 | The guard against leaving the destination refuses exactly the safe paths that begin with two dots, wherever the destination is |
| TarExtract.DottedNameRefused | packages/shared/src/tar.ts:294-298 | A single file named ..a: the writer accepts it, extraction refuses the archive |
| TarExtract.LeftBehind | packages/shared/src/tar.ts:292-310 | A refused extraction leaves every entry before the first refused one on disk |
| TarExtract.CanonicalExtracts | agents/src/buyer/actions.ts:368 | A bundle that passed the canonical check can be extracted exactly when no entry's path begins with two dots |
| TarExtract.FindLink | packages/shared/src/tar.ts:252-265 | The lstat loop finds a symbolic link on the path exactly when there is one |
| TarExtract.ExtractTarProgram | packages/shared/src/tar.ts:283-311 | The extraction loop, guard and link test included, computes the specified directory or error |
| DeliveryLaws.HonestDelivery | agents/src/buyer/verify.ts:157-211 | A packaged version passes every archive check of the buyer exactly when grader/ is not empty, only directories lie directly under tasks/, each has a task.json, and nothing matches the private-material patterns |
| DeliveryChecks.PassesExactly | agents/src/buyer/verify.ts:157-211 | For any bytes, any record on chain and any hash: the checks pass, and not by the buyer's own rewriting being different bytes with the same hash, exactly when the bytes are the writer's archive of a tree with the hash on chain; manifest.json has the hash and the fields on chain; the tree without it and the non-empty tree under grader/ have archives with the digests it names; the names under tasks/ are as many as on chain, each with a task.json; nothing is private |
| DeliveryChecks.DeliveredPasses | agents/src/buyer/verify.ts:157-211 | Such a delivery passes, whatever the hash does |
| DeliveryChecks.EntriesPassExactly | agents/src/buyer/verify.ts:174-211 | The same for the checks after parsing, over the entries of any tree that has an archive |
| DeliveryChecks.NamesFirstTask | agents/src/buyer/verify.ts:193-199 | The task reported without a task.json is the first such in order |
| Delivery.NameTexts | agents/src/buyer/verify.ts:174-199 | The names looked for are manifest.json, grader, tasks and task.json |
| DeliveryLaws.RecomputesBundle | agents/src/buyer/verify.ts:185-187 | Dropping manifest.json from the parsed archive and writing again gives the archive taken before it was written |
| DeliveryLaws.RecomputesUnder | agents/src/buyer/verify.ts:189-191 | Filtering a parsed archive to a directory, stripping the prefix and writing again gives the canonical archive of that directory |
| DeliveryLaws.TaskIdsOfTree | agents/src/buyer/verify.ts:193 | The buyer's task ids are exactly the names directly under tasks/ |
| DeliveryLaws.CountsAgree | agents/src/seller/package.ts:164-171 | The seller's count of task directories equals the buyer's count of names exactly when no stray file lies there |
| DeliveryLaws.PackageTrees | agents/src/seller/package.ts:208-292 | What packaging commits to: the archives of the staged tree, of its grader and of the finished payload |
| DeliveryContents.PackagesExactly | agents/src/seller/package.ts:186-292 | Packaging succeeds exactly when every required name is there, grader/ is a directory, some directory stands directly under tasks/ and all of them have valid names, every packaged place is a file or directory with a portable path that fits the header (in grader/ by its path below it too), and files and manifest have less than 8^11 bytes |
| DeliveryContents.ShipsExactly | agents/src/seller/package.ts:183-292 | Reading the bundle back gives the manifest and exactly the places of the workspace whose top-level name is one of the payload's and none of whose names is withheld, each once, with the kind, contents and execute bit it has there |
| Delivery.VerifyArchiveProgram | agents/src/buyer/verify.ts:157-211 | The sequence of checks with early exits returns the first that fails |
| Delivery.ListTaskIds | agents/src/buyer/verify.ts:193 | The filter and map return the sorted distinct ids |
| Episode.EpisodeDir.Step | seller-workspace/py-repair-kit/grader/env.py:213-245 | One step call: its reply and the saved state, for each of the four branches and for an action that raises |
| Episode.EpisodeDir.Reset | seller-workspace/py-repair-kit/grader/env.py:122-149 | A reset wipes an earlier episode, refuses any other directory that is not empty, and otherwise saves a fresh open state |
| Episode.EpisodeDir.Close | seller-workspace/py-repair-kit/grader/env.py:260-265 | Closing removes an episode's directory and no other |
| Episode.RecordedSteps | seller-workspace/py-repair-kit/grader/env.py:213-245 | Along every run: log length is actions used plus one if done, actions used never exceed the budget, at most budget + 1 steps are recorded |
| Episode.RunKept | seller-workspace/py-repair-kit/grader/env.py:223-244 | Along every run: done iff a termination is set, entries are numbered, every used action came in time and was no submit, and the last entry explains the termination |
| Episode.DoneIsAbsorbing | seller-workspace/py-repair-kit/grader/env.py:215-216 | An ended episode stays as it is |
| Episode.TerminationExactly | seller-workspace/py-repair-kit/grader/env.py:223-231 | A run ended for a reason exactly when some call found the episode open and met that reason |
| Episode.OnlyRecordedStepsChange | seller-workspace/py-repair-kit/grader/env.py:232-244 | A step leaves the saved state alone exactly when the episode is done or its action raised; otherwise it adds one entry |
| Episode.RepliesExactly | seller-workspace/py-repair-kit/grader/env.py:213-245 | Anywhere along a run the reply is that the episode is over, that the action raised, or the status just saved: used and remaining actions make up the budget, and the notice comes exactly with the action that uses it up |
| Harness.EnvEpisode.RunToolCall | harness/envmarket_coding/envmarket_coding/environment.py:301-335 | A tool call updates view and server as specified, for unknown tools, bad arguments, lost requests and lost replies too |
| Harness.EnvEpisode.EnvResponse | harness/envmarket_coding/envmarket_coding/environment.py:284-299 | A turn runs its calls in order and stops at an infrastructure error |
| Harness.ViewIsServer | harness/envmarket_coding/envmarket_coding/environment.py:326-328 | While nothing went wrong, done, termination and action count of harness and server coincide after every event |
| Harness.BatchingIsImmaterial | harness/envmarket_coding/envmarket_coding/environment.py:284-299 | Any two ways of cutting the same tool calls into non-empty turns give the same rollout |
| Harness.ScoreOneMeansSubmitted | harness/envmarket_coding/envmarket_coding/environment.py:359-417 | A record with score 1: the server's last recorded step is a submit that came in time, within the action budget, the counts agree, all hidden tests passed, and the rollout was not broken off |
| Harness.ScoreOneExactly | harness/envmarket_coding/envmarket_coding/environment.py:359-417 | For every rollout, grade and error: score 1 exactly when the rollout was not broken off, the server ended the episode for a submit, and the tests ran and all passed |
| Harness.RecordExactly | harness/envmarket_coding/envmarket_coding/environment.py:377-419 | The status is an infrastructure failure exactly for a failed grading or an error that is neither a token stop nor the model's own; otherwise success for score 1 and not solved for score 0; reason, token mark and action count are the episode's |
| Harness.SuccessesAreSteps | harness/envmarket_coding/envmarket_coding/environment.py:301-335 | Along every unbroken rollout the calls counted as successes are as many as the successful steps in the server's log |
| Harness.AnsweredCall | harness/envmarket_coding/envmarket_coding/environment.py:317-335 | An answered call adds one entry under its name, a success exactly when the server recorded a successful step |
| Harness.FailedCall | harness/envmarket_coding/envmarket_coding/environment.py:320-335 | An answer that the episode is over, or an internal error, adds one failed entry and changes neither server nor counts; only the first ends the view |
| Harness.RefusedLocally | harness/envmarket_coding/envmarket_coding/environment.py:303-315 | An unknown tool or unusable arguments cost one failed entry and never reach the server |
| Harness.LostCall | harness/envmarket_coding/envmarket_coding/environment.py:317-322 | A lost request or reply breaks the rollout off without an entry; the server has acted only when the reply was lost |
| Harness.IdleIsTrailing | harness/envmarket_coding/envmarket_coding/environment.py:284-299 | While a rollout is open the idle counter is the number of latest turns without a call |
| Harness.TokenStopExactly | harness/envmarket_coding/envmarket_coding/environment.py:243-246 | A token stop ends the rollout for good, keeps an earlier reason, and reaches no server |
| Workspace.NormalizedIsPlain | seller-workspace/py-repair-kit/grader/tasks.py:142-150 | A normalised path has only real segments, and normalising it again changes nothing |
| Workspace.ResolvedInside | seller-workspace/py-repair-kit/grader/tasks.py:153-159 | A normalised path other than the root resolves strictly below the workspace |
| Workspace.IsEditable | seller-workspace/py-repair-kit/grader/tasks.py:162-171 | The loop decides the segment-wise pattern match, after the denied names |
| Workspace.IterFilesProgram | seller-workspace/py-repair-kit/grader/tasks.py:174-184 | The listing is the sorted set of regular files outside caches |
| Workspace.ListedExactly | seller-workspace/py-repair-kit/grader/tasks.py:174-184 | A path is listed exactly when it does not end in .pyc and no directory above it is named __pycache__ or .pytest_cache |
| Workspace.DigestFiles | seller-workspace/py-repair-kit/grader/tasks.py:187-191 | The loop feeds path, NUL and content hash of each file in order |
| Workspace.DigestDetermines | seller-workspace/py-repair-kit/grader/tasks.py:187-191 | With an injective 32-byte inner hash, two trees have the same stream exactly when they have the same listed files |
| Grading.GradeWorkspace | seller-workspace/py-repair-kit/grader/grade.py:80-93 | Fails exactly when a listed name has a backslash or an edit has no place in the base; otherwise gives the base overlaid with the permitted edits and both sorted lists |
| Grading.GradeFile | seller-workspace/py-repair-kit/grader/grade.py:81-92 | One round of the loop |
| Grading.WriteOne | seller-workspace/py-repair-kit/grader/grade.py:88-92 | Writing an edit after others succeeds exactly when the base leaves room for it, and adds just that edit |
| Grading.MakeParents | seller-workspace/py-repair-kit/grader/grade.py:91 | Making the parent directories |
| GradingLaws.OnlyPermittedEditsCount | seller-workspace/py-repair-kit/grader/grade.py:3-6 | Two workspaces that agree on permitted files of acceptable size give the same tree and the same edits |
| GradingLaws.ReportedExactly | seller-workspace/py-repair-kit/grader/grade.py:80-93 | Reported as edited are exactly the listed, editable files of at most 262144 bytes that differ from the base, as rejected the larger ones, both lists sorted |
| GradingLaws.GradedExactly | seller-workspace/py-repair-kit/grader/grade.py:80-93 | The graded tree place by place: a reported edit has the agent's bytes and the base's execute bit, every other place of the base is as it was, and only directories above edits are new |
| GradingLaws.RestIsBase | seller-workspace/py-repair-kit/grader/grade.py:3-6 | Whatever the agent may not edit is in the graded tree as in the base |
| GradingLaws.BaseIs | seller-workspace/py-repair-kit/grader/tasks.py:123-132 | Every overlay place is in the starting tree with its contents, an overlay file inside the source directory of its name if there is one; source places not landed on are kept |
| GradingLaws.OverlayLands | seller-workspace/py-repair-kit/grader/tasks.py:123-132 | Laying the overlay down fails exactly when it has a directory where the source has a file, or a file whose place in a directory of its name is itself a directory; otherwise each overlay place is in the tree as given |
| GradingLaws.CopiedExactly | seller-workspace/py-repair-kit/grader/tasks.py:38 | A path is copied exactly when none of its names is __pycache__, .pytest_cache or .DS_Store or ends in .pyc |
| GradingLaws.BaseIsProper | seller-workspace/py-repair-kit/grader/tasks.py:123-132 | src with the overlay on top is a proper tree |
| GradingLaws.DigestCoversTree | seller-workspace/py-repair-kit/grader/grade.py:93 | The graded tree is proper and every file of it is in the digest |
| GradingLaws.RegradeReproduces | harness/envmarket_coding/envmarket_coding/run.py:240-249 | Grading the workspace rebuilt from the edited files alone succeeds and gives the same tree and edits |
| GradingLaws.HonestRecordsReproduce | harness/envmarket_coding/envmarket_coding/run.py:247-250 | The record of any graded workspace reproduces |
| GradingLaws.ForgedRecordsDoNot | harness/envmarket_coding/envmarket_coding/run.py:249 | With the same edits, any other score or digest is reported as a mismatch |
| GradingLaws.Rebuild | harness/envmarket_coding/envmarket_coding/run.py:241-245 | In whatever order they come, writing the stored files raises exactly when one path lies below another, and otherwise builds exactly those files and their directories |
| GradingLaws.Regrade | harness/envmarket_coding/envmarket_coding/run.py:238-276 | The run comes to an end exactly when every record's files can be written together, and then counts exactly the records that do not reproduce |
| GradingLaws.NoMismatchExactly | harness/envmarket_coding/envmarket_coding/run.py:272-276 | No mismatch is counted exactly when every record reproduces |
| GradingLaws.ParseJunit | seller-workspace/py-repair-kit/grader/grade.py:49-66 | The counters add up to the number of cases, clean ones included |
| GradingLaws.Score | seller-workspace/py-repair-kit/grader/grade.py:107-123 | Score 1 exactly for a submission with at least one hidden test and every one clean, no timeout, exit code 0 |
| Actions.WriteFile | seller-workspace/py-repair-kit/grader/env.py:184-200 | A write answers with the first failing check, or writes the file and makes the directories above it |
| Actions.WriteAnswers | seller-workspace/py-repair-kit/grader/env.py:184-200 | For each answer the exact condition: bad path, not editable, content no string, more than 262144 bytes; accepted exactly when none applies, the path is not the workspace itself, and its place is free or a file with only directories above it |
| Actions.OnlyEditableChanges | seller-workspace/py-repair-kit/grader/env.py:184-200 | An accepted write changes one editable file of at most the size limit; every other place stays, and only directories above it are new |
| Actions.WriteCountsExactly | seller-workspace/py-repair-kit/grader/grade.py:81-87 | An accepted write is taken into the graded tree exactly when it is no .pyc file and not below a .pytest_cache directory; below __pycache__ nothing is accepted |
| Actions.AcceptedAndIgnored | seller-workspace/py-repair-kit/grader/env.py:184-200 | With a/* editable, writing a/x.pyc is accepted and grading does not see it |
| Actions.WriteIsGraded | seller-workspace/py-repair-kit/grader/grade.py:81-92 | A listed write is in the graded tree with its bytes, and is reported as edited exactly when it differs from the base |
| JsonLaws.ParsePrinted | services/jurors/src/publish.ts:14-23 | Parsing the printed form gives the value back, members in key order, undefined ones dropped |
| JsonText.UnitText | services/jurors/src/publish.ts:14-15 | The text of every code unit on its own: two characters for exactly 8, 9, 10, 12, 13, 34 and 92; backslash, u and four lower-case hexadecimal digits for the other units below 32 and for lone surrogates; itself otherwise |
| JsonText.EscapeConcat | services/jurors/src/publish.ts:14-15 | Strings are printed piece by piece, cut anywhere but through a surrogate pair |
| JsonText.PairText | services/jurors/src/publish.ts:14-15 | A surrogate pair stands for itself |
| JsonText.AtomsText | services/jurors/src/publish.ts:14-23 | null, true, false, the empty array and the empty object |
| JsonText.ArrayGrows | services/jurors/src/publish.ts:16 | One more item adds a comma, if there was an item, and the item's text before the closing bracket |
| JsonText.ObjectGrows | services/jurors/src/publish.ts:17-22 | One more member with the last key adds a comma, if a member was printed, and key, colon and value before the closing brace |
| JsonText.NormIsOrdered | services/jurors/src/publish.ts:18-20 | The value a printed text parses to has its members in ascending order of their keys at every level |
| JsonText.NoBlanks | services/jurors/src/publish.ts:14-23 | No white space stands outside strings |
| JsonLaws.PrintsAlikeExactly | services/jurors/src/publish.ts:14-23 | Two values print alike exactly when they are the same up to the order of members |
| JsonLaws.ReorderingIsImmaterial | services/jurors/src/publish.ts:18-22 | Reordering members or adding undefined ones does not change the text |
| JsonParser.ValueRoundTrip | services/jurors/src/publish.ts:14-23 | The printed form of any value is read back from the front of any text that does not continue a number |
| JsonParser.StringRoundTrip | services/jurors/src/publish.ts:15 | Escaped strings, lone surrogates included, are read back |
| JsonScanner.ExtractJsonObject | services/jurors/src/rubric.ts:102-120 | The loop over depth, in-string and escape flags computes the extraction |
| JsonScanner.ScannerFindsObject | services/jurors/src/rubric.ts:102-120 | After prose without a brace the scanner returns exactly the JSON object that begins there, for every object the grammar allows and whatever follows |
| JsonScanner.PrintedObjectFound | services/jurors/src/rubric.ts:97-121 | A printed object comes back unchanged from between such prose and any text |
| JsonScanner.ValueWalks | services/jurors/src/rubric.ts:107-118 | The scanner passes over any JSON value outside strings and at the same depth |
| Screening.Finish | services/jurors/src/decide.ts:69-71 | For every packet and output: the rationale is released exactly when it has at most 80 words and 700 bytes, trips no pattern and shares no seven words in a row with a private string of 40 or more code units; of the first five facts exactly those are released, in order, that meet the same with 25 words and 250 bytes; so nothing released copies the packet |
| Screening.WordsAreRuns | services/jurors/src/rubric.ts:195-201 | The words of a text are its maximal runs of the letters a to z and the digits 0 to 9, all of them, in order, by their positions |
| Screening.CopiesExactly | services/jurors/src/rubric.ts:204-238 | A text is found to copy exactly when it shares seven words in a row with a string of 40 or more code units that stands under no public key of the packet |
| Screening.WithheldText | services/jurors/src/rubric.ts:22 | The notice is "Rationale withheld by output screening." |
| Screening.ScreenText | services/jurors/src/rubric.ts:222-238 | The reasons are exactly the failing checks; the copy reason is given exactly when a run is shared |
| Screening.ScreenDecision | services/jurors/src/rubric.ts:250-265 | A failing rationale is replaced, failing facts among the first five are dropped, the rest is unchanged and counted |
| Screening.Shingles | services/jurors/src/rubric.ts:204-211 | The set of joined word runs |
| Screening.JoinInjective | services/jurors/src/rubric.ts:208 | Equal shingles are equal word runs |
| Screening.LeafInCorpus | services/jurors/src/rubric.ts:271-282 | Every long string under no public key is in the corpus, however deep |
| Screening.CorpusIsLeaf | services/jurors/src/rubric.ts:271-282 | Nothing else is in the corpus |
| Screening.WithheldIsShort | services/jurors/src/rubric.ts:22 | The notice that replaces a rationale has fewer than seven words |
| Merkle.HashPairCommutes | packages/shared/src/commitments.ts:100-105 | The pair hash does not depend on the order |
| Merkle.HashPairAscends | packages/shared/src/commitments.ts:100-105 | The smaller of the two nodes is hashed first |
| Merkle.RootIsQueueRoot | packages/shared/src/commitments.ts:107-117 | For every number of leaves the root is that of a queue: the first two nodes leave it and their hash joins at the end, until one is left |
| Merkle.SmallRoots | packages/shared/src/commitments.ts:107-117 | The roots of one, two and three leaves in terms of the hash |
| Merkle.RootOfTwo | packages/shared/src/commitments.ts:170-207 | The root over two tasks, in either order, is the hash of the smaller leaf and the greater |
| Merkle.MakeTree | packages/shared/src/commitments.ts:107-117 | The array holds the complete binary tree, leaf i at position 2n-2-i |
| Merkle.GetProof | packages/shared/src/commitments.ts:123-127 | The loop collects the siblings on the way to the root |
| Merkle.ProofReachesRoot | packages/shared/src/commitments.ts:129-132 | Folding the siblings of any position gives the root |
| Merkle.LeafProofVerifies | packages/shared/src/commitments.ts:123-132 | The proof of leaf i verifies for every number of leaves and every i |
| Merkle.ProofBindsLeaf | packages/shared/src/commitments.ts:134-141 | With a collision-free hash only one value verifies with a given proof and root |
| Merkle.BuildTaskTree | packages/shared/src/commitments.ts:170-207 | Accepts exactly 1 to 256 tasks with valid distinct ids, answers with the first thing wrong otherwise, and builds the tree over the tasks sorted by id, with the root of the leaf queue |
| Merkle.TreeIgnoresOrder | packages/shared/src/commitments.ts:185 | Any permutation of the tasks is accepted alike and sorts to the same tree |
| Merkle.LeafIsRanked | packages/shared/src/commitments.ts:191-198 | A leaf's index is the number of task ids before its own; it hashes its task and its proof verifies |
| Masks.MaskFromIndices | packages/shared/src/commitments.ts:210-217 | Fails exactly on an index outside 0..255; otherwise the mask has exactly the given bits |
| Masks.IndicesFromMask | packages/shared/src/commitments.ts:220-226 | Fails exactly on a negative mask or one with a bit at or above the count; otherwise lists the set bits |
| Masks.IndicesAre | packages/shared/src/commitments.ts:224 | The listed indices are the set bits below the count, ascending |
| Masks.IndicesOfMask | packages/shared/src/commitments.ts:210-226 | From indices to a mask and back: the sorted list of the indices, each once |
| Masks.MaskOfIndices | packages/shared/src/commitments.ts:210-226 | From a mask to indices and back: the mask |
| Masks.Popcount | packages/shared/src/commitments.ts:228-232 | The loop counts the set bits: the length of the index list |
| Masks.BitIs | packages/shared/src/commitments.ts:210-232 | Bit i is the binary digit of weight 2^i |
| TokenCaps.TokenMeter.GetModelResponse | harness/envmarket_coding/envmarket_coding/environment.py:248-282 | Which calls are refused, what limit is sent, and what a seed rejection and its retry leave |
| TokenCaps.CapsHold | harness/envmarket_coding/envmarket_coding/environment.py:252-269 | Over any number of calls, retries included, usage stays within the input, output and combined caps if prompts stay within their estimates and completions within the limits sent |
| TokenCaps.GrantedExactly | harness/envmarket_coding/envmarket_coding/environment.py:265-269 | The limit sent under caps is one of the caller's limit and what is left under each cap, no larger than any of them, and at least 256; without caps, or with nothing to limit the call, the caller's own |
| TokenCaps.RefusedExactly | harness/envmarket_coding/envmarket_coding/environment.py:252-267 | A call is refused exactly when the model has caps and the input cap would be passed, fewer than 256 tokens are left under a cap, or the caller's own limit is below 256; the described rule does not mention the last case |
| TokenCaps.SmallLimitRefused | harness/envmarket_coding/envmarket_coding/environment.py:257-267 | A first call limited to 100 tokens under a cap of a million is refused; without that limit, or without caps, it is not |
| EnvServer.EnvServer.Call | harness/envmarket_coding/envmarket_coding/envserver.py:48-73 | A call that returns yields the answer to that very request, whatever timeouts, stale replies and noise came before |
| EnvServer.EnvServer.ServerAnswers | seller-workspace/py-repair-kit/grader/env.py:300-322 | The oldest unanswered request is answered, once, under its id: the answers given so far are those of the first requests, in order |
| Runs.OneRecordInAnyOrder | harness/envmarket_coding/envmarket_coding/run.py:145-165 | For distinct models and tasks each pair has exactly one record, in its model's list, in whatever order the jobs finish |
| Runs.SummaryIgnoresOrder | harness/envmarket_coding/envmarket_coding/run.py:59-75 | The summary counts are the same for every completion order |
| Runs.Collect | harness/envmarket_coding/envmarket_coding/run.py:159-165 | The loop appends each record to its model's list |
| Runs.Summarize | harness/envmarket_coding/envmarket_coding/run.py:59-75 | The counts of a summary |
| Runs.SummaryGrows | harness/envmarket_coding/envmarket_coding/run.py:59-75 | Each record adds one episode, its tokens, and one to the solved and the failed counts it belongs to |
| Runs.SummaryCounts | harness/envmarket_coding/envmarket_coding/run.py:59-75 | The counts are the numbers of episodes, of solved ones and of infrastructure failures |
| Report.RoundedIsNearest | packages/shared/src/report.ts:30-37 | The result is the one multiple of 5 nearest to the pass rate, ties upward, and lies in 0..100 |
| Report.RoundedIsMonotone | packages/shared/src/report.ts:30-37 | More solved tasks never round to less |
| Report.OutcomeExactly | packages/shared/src/report.ts:30-51 | For every pair of integers the schema accepts exactly one percentage for counts in range, null without attempts and else the nearest step, and none for any others, which the rounding refuses too |
| NetDeny.FilterVerdict | services/tee/runtime/netdeny.py:43-61 | The packed program reads back as written and decides every system call: killed on another architecture; refused with EACCES from 0x40000000 up, for io_uring_setup, and for socket with any family but AF_UNIX; allowed otherwise |
| NetDeny.FilterBytes | services/tee/runtime/netdeny.py:24-61 | All 88 bytes handed to the kernel |
| NetDeny.AcceptedTerminates | services/tee/runtime/netdeny.py:43-61 | A program whose jumps stay inside and that ends in a return always comes to a verdict |
| NetDeny.FilterAccepted | services/tee/runtime/netdeny.py:47-61 | The filter is such a program, of 11 instructions |

## Left out

- The state file as JSON text, and records of other deployments in it: the model keeps one deployment's data.
- A save that throws while the process lives on: it counts as a crash. Chain reorganisations and a log answer that omits events are assumed away, and so is a second process with the same key (the lock file).
- The keeper's calls, withdrawals and registration of the juror: for the protocol they are moves of the chain, which it makes at any time anyway.
- What a juror's deliberation fetches and thinks: the verdict is an arbitrary value that arrives or does not.
- The order of a resolved dispute's two rationale uploads: the model lets them overlap.
- Market accounting in the contract (stakes, slashing, payments): only seats, stages, deadlines, commitments and reveals are modelled. The model lets a tally happen at any time during voting.
- A start block of 0 skips block 0, as the code does: the first block scanned is the one after the initial cursor.
- TarReader.ReadTarProgram: archives of other programs are decoded as POSIX describes ustar, which differs from the library codec for octal fields in base 256 or led by spaces, replacement characters in names, old-style directories (a file entry whose name ends in a slash) and the type flag N. The library is not part of this repository.
- Sizes of 8^11 bytes and more are refused, as in `digest.py`; the TypeScript library would switch to base 256.
- Names that are not valid UTF-8, and lone surrogates in them.
- Encryption, key wrapping and the on-chain checks before the archive checks of a delivery; filling the manifest template, the audit tree, license and provenance files.
- The regular expressions for forbidden paths, private content and task ids: parameters of the checks.
- An error thrown by the writer inside the buyer's verification counts as that check failing.
- The permission bits of the extraction directory.
- The symbolic links `copytree` follows, and symbolic links inside a workspace: they are listed nowhere and never written through.
- GradingLaws.RegradeReproduces: states re-grading over bytes; the harness stores edited files as text, with replacement characters and newline translation on the way.
- Episode.EpisodeDir.Reset: does not copy the workspace into the directory, so a failure of that copy is not modelled.
- GradingLaws.Rebuild: only stored paths that are relative and made of real names. The program also follows '..' and absolute paths out of the rebuilt workspace; where those lead is outside the model. Honest records have no such paths (`GradingLaws.HonestRecordsReproduce`).
- GradingLaws.Regrade: the same restriction.
- The agent's actions other than writing a file: listing, reading and running the visible tests.
- Actions.WriteFile: the workspace has no symbolic links; the refusal to write through one is not modelled.
- The order in which packaging copies and writes files: its archives are functions of the resulting trees.
- Running the tests: pytest's result is a function of the graded tree.
- The files a visible-test run may change in the workspace; grading starts from whatever the workspace holds at the end.
- Rounding of times to milliseconds in the episode log; texts of observations and error messages; truncation of tool output.
- Floating-point costs and pass rates: only the integer form of rounding is modelled.
- The schema check of the juror's reply and the texts of screening reasons; which reason belongs to which fact.
- Byte order mark, `<think>` blocks, code fences and trimming before the object scanner: it starts from the trimmed body.
- The order in which JSON.parse enumerates members, and repeated keys: the parser keeps members as written.
- `undefined` at the top level or inside an array, where the printer gives no JSON.
- Letter case and prefix of hexadecimal digests: a digest is its bytes.
- Numbers are their printed form; formatting a double is a parameter.
- Sanitising of untrusted evidence and rendering of prompts.
- The Merkle library itself is not part of the repository: array layout and proofs follow the description in `commitments.ts`.
- TokenCaps.CapsHold: a cap below the size of the first call is met by making no call; usage is then 0 even where the cap is negative.
- Noise lines that carry a request's own id would be taken for its reply; the model assumes there are none.
- Installing the seccomp filter: the calls into the kernel.
