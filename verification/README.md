# Verified models of the host scripts

This project models, in Dafny, the scripts that stage private host artifacts, carry a candidate
over a bounded transfer, judge mutants, rewrite a vendor pin, refresh a document manifest, wait for
a virtual machine's address and decode a host baseline. It proves what those scripts promise about
every input, every run and every reachable state. `dafny verify dfyconfig.toml` checks all of it.

Text and bytes are sequences of code points (`Texts.Text`); a byte string holds codes below 256.
Every hash is a function parameter, so a result holds for any hash. Where a script changes
something step by step, the model is a method or a class with the same steps, proved against a
function or a predicate, and the promises are lemmas about that.

## What is proved

**Artifact planning, staging and verification** (`RuntimeNames`, `RuntimeShape`, `RuntimePlan`,
`RuntimeContents`, `RuntimeWritable`, `RuntimeManifest`, `RuntimeGiven`, `RuntimeWitness`, `ArtifactInventory`,
`ArtifactPlan`, `PlanContents`, `PlanShape`, `PathParts`, `FileSystem`, `Materialize`, `LinkWitness`, `ArtifactTree`,
`ChangingFile`, `ArtifactStage`, `ArtifactCommands`, `TreeFacts`, `StableStage`, `StageWitness`). The runtime planner is a class whose dict and set of
visited directories change in place; its recursion ends on every finite host tree. It gives a plan exactly
when planning without the bound on entries succeeds and its result is within the bound. A disk is a map
from paths to nodes with modes, owners and contents, and creating a node needs a writable parent. A lookup
goes through searchable directories and follows every link before its last part, at most 40 of them, so a
path may lead elsewhere than it says. A well-formed plan is written into a free place whatever its modes:
directories stay private while they are filled and are tightened last-made first, so each is still
reachable when its turn comes. The tree is then read back and compared. The comparison finds nothing
exactly when every entry is *faithful*: its mode lets its owner read it back, its content has the captured
digest and is within the read bound, and its link stays inside. It does not hold for all modes, because a
file its owner cannot read is written and then refused by the read-back (`WriteOnlyFileDoesNotMatch`); the
program's own plans only use modes that do read back. Whatever the host sources do between capture and
copy, `Stage` succeeds only for a tree equal to the captured inventory. A scan shows only what its reader
may list, so equality covers hidden paths where the inventory's directories are open to the reader, and
the inventories of this program's plans are (`RuntimePlanOpens`).

What a runtime plan holds is also stated name by name, without the functions that compute it
(`RuntimeManifest`): which binaries the loader is asked about, that everything it lists for them is planned, the
library tree, the fixed entries, and a reason for every entry there is. `RuntimeGiven` says what suffices for a
plan to be given, `PlanContents` lists the rows of the complete plan and of its staging form, and `TreeFacts` says
what custody, the policy file and a tree equal to an inventory are, node by node.

A runtime plan is not always writable. It is written into a free place exactly when no name that the
script asks the host for by name (a fixed one, or one the loader lists) is a regular file above a name the
script fixes itself, none lies under an empty file or the python3 link, and neither helper is called `.`
or `..`, which the script's own pattern for a helper's path admits; otherwise no disk and no destination
takes it. Only what the loader lists can be in the way (`OnlyListedObstruct`). One host whose `/opt` is a
regular file is an instance of both: with `/opt` listed its plan is written nowhere
(`SomePlanIsWrittenNowhere`), with nothing listed it is written and staged (`SomePlanIsWritten`,
`SomePlanIsStaged`).

That nothing but a directory may stand above a planned entry is true of files and of links that lead to a
planned file. It is false of a link to a directory planned before: what is planned under such a link is
made in that directory (`WrittenThroughLink`). The one link of the script's own plans leads to the
python3.12 file, which is missing or a file whenever anything under the link would be created
(`RuntimeLinks`, `LinkBlocks`).

A bounded read is also modelled with its path and its file changing between any two of its calls: a
success returns bytes of the one file that lstat saw. Of a file that only grows they are what it held at
fstat; of a file overwritten in place with the same size they need not be anything it ever held
(`TornReadIsAccepted`).

**Transfer codec and capture** (`Json`, `JsonGrammar`, `JsonPrinting`, `CanonicalJson`, `TransferCodec`,
`TransferDocument`, `CaptureTransfer`, `CaptureHistory`).
`parse_artifact` returns a pair exactly from the bytes `artifact_bytes` emits for it, so every
accepted byte string is the one encoding of its pair, and the 80 KiB bound never refuses what the
field bounds admit. JSON strings follow section 7 of RFC 8259 and hex is the lowercase form of
section 8 of RFC 4648. The capture is a step relation with one atomic step per chunk, write, kill,
exit and cancellation; its invariant holds on every interleaving. Every run has at most sixteen events
besides chunks and repeated cancellations, and every unfinished reachable state goes on without a
cancellation, a timeout or a failure. The JSON reader gives a value exactly for the texts of a grammar, the emitted
document is stated character by character, and what a finished capture publishes is stated in terms of the events
of its run alone.

**Mutation harness** (`Lines`, `Evidence`, `SourceSnapshot`, `MutationChild`, `MutationHarness`, `MutationVerdict`,
`RunLog`).
The exit status is 0 exactly when every listed mutant is reported KILLED, with one exception: an
empty list whose source changed returns 1 (`EmptyListCanFail`). A report survives printing and
reading back exactly when no node id holds an adjacent surrogate pair; a lone surrogate survives.
A mutant is reported KILLED exactly when what pytest reported to its two children shows it caught.
A child reads only some parts of its mutant, so caching baselines by module and test ends with the status
and verdict lines of a run that launches every baseline again.

**Pin, manifest, address and baseline** (`PinRewrite`, `ReleaseSelect`, `PlanManifest`, `ManifestRules`,
`VmAddress`, `AddressReport`, `HostBaseline`, `BaselineRows`). Normalising and restoring line endings is the identity exactly when the counts of
LF and CRLF agree. A refreshed manifest reads back, and a second refresh repeats it, exactly when no
named path holds a character that `str.splitlines` breaks on; `plan_path` only excludes LF and CR
(`VerticalTabIsAccepted`), and with such a path the second refresh is always refused. The address
loop's bounds need no assumption about the clock at all.

## Assumptions

- Only the harness prints marker lines, and node ids are nonempty and without surrogate pairs
  (`MutationChild.Trustworthy`).
- `finish_owned` joins the cleanup task, and the readers of a capture raise only through writes.
- A plan is made from sources read once (`ArtifactInventory.Host`); the host at the moment each
  entry is copied is a second, unrelated parameter.
- File names in directories are ordinary: nonempty, without a slash, not `.` or `..`.
- On the host that a runtime is planned from, a regular file is no directory and has nothing below it.
- UTF-8 decoding, `isprintable`, `\w` and IPv6 syntax are parameters.

## Model

| member | source | states |
|---|---|---|
| RuntimePlan.Planner.AddDirectory | scripts/claude_host_artifacts.py:410-415 | Refused exactly beyond 32 parts; otherwise every prefix is planned as a directory unless its name was. |
| RuntimeContents.EarlyPrefixes | scripts/claude_host_artifacts.py:410-415 | With the prefixes of a path planned the plan keeps unique names, ancestors and files at their own places, and every prefix is there. |
| RuntimePlan.Planner.AddHostFile | scripts/claude_host_artifacts.py:417-432 | Exactly when a file name is admitted: plain, and already planned or within the limit and depth with a usable source. |
| RuntimeContents.EarlyFile | scripts/claude_host_artifacts.py:417-432 | A newly admitted name stands as the regular host file at its own path, executable or not as that is, and nothing planned is lost. |
| RuntimePlan.Planner.AddTree | scripts/claude_host_artifacts.py:434-453 | A directory visited before is refused; otherwise the walk gives what the recursive function gives, or refuses where that does or leads over the bound. |
| RuntimeContents.TreeWalked | scripts/claude_host_artifacts.py:434-453 | A walk that succeeds plans every child of every directory it visited, at its own place, and loses nothing planned. |
| RuntimePlan.Planner.AddChild | scripts/claude_host_artifacts.py:446-453 | A child is passed over, walked or planned exactly as the recursive function does it, or refused where that refuses or leads over the bound. |
| RuntimeContents.ChildWalked | scripts/claude_host_artifacts.py:446-453 | An accepted child that is not ignored is planned, and walked if it is a directory. |
| RuntimeContents.EarlyStands | scripts/claude_host_artifacts.py:417-432 | Where the host has a regular file under a planned name, that very file is what is planned. |
| RuntimeContents.EarlyDependencies | scripts/claude_host_artifacts.py:458-462 | All that the trusted loader lists for each binary is planned. |
| RuntimePlan.Planner.AddHelper | scripts/claude_host_artifacts.py:465-470 | A helper is refused exactly when its name is planned already, or too deep. |
| RuntimeContents.LateHelpers | scripts/claude_host_artifacts.py:465-470 | Both helpers stand with their reviewed bytes, under different names, and replace nothing. |
| RuntimeContents.LatePlaceholders | scripts/claude_host_artifacts.py:471-476 | The mount points, empty files and python3 link are planned, and nothing under another name is replaced. |
| RuntimePlan.Plan | scripts/claude_host_artifacts.py:403-478 | A plan is given exactly when planning without the bound succeeds and gives at most 20000 entries, and is that in order; no directory is scanned twice. What succeeds and what is planned are the following rows. |
| RuntimeWritable.PlanIsFinished | scripts/claude_host_artifacts.py:403-478 | A plan has the root first, unique names, ancestors first and at most 20000 entries; the five host names stand as host files, everything listed for each binary and everything walked is planned, and the extra libraries, helpers and placeholders stand. The rows of `RuntimeManifest` say it name by name. |
| RuntimeManifest.BinariesAre | scripts/claude_host_artifacts.py:457-461 | The loader is asked about exactly the interpreter, git, the shell and every name ending in ".so" that is listed below the library directory, through real directories. |
| RuntimeManifest.AskedIsPlanned | scripts/claude_host_artifacts.py:454-462 | Each of the five fixed names and every name listed for one of those binaries, its leading slashes taken off, is planned; where the host has a regular file there, as that file with mode 0o555 or 0o444, unless the name is an empty file's or the link's. |
| RuntimeManifest.EveryBinaryAnswers | scripts/claude_host_artifacts.py:459-462 | A plan is given only if the loader answers for every such binary. |
| RuntimeManifest.LibraryIsPlanned | scripts/claude_host_artifacts.py:434-456 | Whatever is listed step by step below the library directory is planned, but for the five ignored names and what is below them. |
| RuntimeManifest.FixedEntriesArePlanned | scripts/claude_host_artifacts.py:403-478 | The root, the three empty files, the python3 link and both helpers are these entries, with these names, modes and contents. |
| RuntimeManifest.FixedNamesArePlanned | scripts/claude_host_artifacts.py:463-473 | The six mount points and the three extra libraries are planned. |
| RuntimeManifest.EntriesAreKnown | scripts/claude_host_artifacts.py:403-478 | There is a reason for every entry: a directory of mode 0o555 leads to something asked for, through the library tree, to a file of the script's own or to a mount point; a host file within 64 MiB is asked for, listed in the library tree or an extra library; and the rest are the script's own entries. |
| RuntimeGiven.HostFileIff | scripts/claude_host_artifacts.py:417-432 | A file is admitted exactly when its name is a path of word characters, '.', '+' and '-' without dot parts, and it is planned already or is a bounded regular file, not empty unless that is allowed, at most 33 parts deep. |
| RuntimeGiven.PlanIsGiven | scripts/claude_host_artifacts.py:403-478 | On a host whose loader answers for every binary, where what is asked for are bounded files, the library tree is open and come to on one way only, the extra libraries are there and nothing is asked for at a helper's place, planning two different helpers succeeds, and gives a plan if it has at most 20000 entries. |
| RuntimeGiven.PlannedIsOneWay | scripts/claude_host_artifacts.py:434-456 | A plan is given only if the walk comes to every directory of the library tree on one way. |
| RuntimeWritable.EntryKinds | scripts/claude_host_artifacts.py:403-478 | Planned bytes are exactly the two helpers' and the three empty files', the only link is python3, directories have one mode, and every other file is the host file at its own path or an extra library. |
| RuntimeWritable.PlanWellFormedOrNowhere | scripts/claude_host_artifacts.py:403-478 | On an unobstructed host with helpers not called "." or ".." the plan is well formed; otherwise it is refused on every disk, at every destination and for every later host. |
| RuntimeWritable.PlanWritableIff | scripts/claude_host_artifacts.py:403-478 | Into a free place, with its sources there, a plan is written exactly under that condition on host, loader and helper names. |
| RuntimeWitness.SomePlanIsWrittenNowhere | scripts/claude_host_artifacts.py:403-478 | One host, with /opt a listed regular file, for which the script gives a plan that is written nowhere. |
| RuntimeWitness.SomePlanIsWritten | scripts/claude_host_artifacts.py:403-478 | The same host with nothing listed meets the condition, and its plan is written into a free place of a bare disk. |
| RuntimeWritable.OnlyListedObstruct | scripts/claude_host_artifacts.py:403-478 | The script's own five names are never in the way: a host is obstructed exactly by a name that the loader lists. |
| RuntimeWritable.RuntimeLinks | scripts/claude_host_artifacts.py:474-478 | Every link of a finished plan is beside the regular file that it leads to. |
| RuntimeNames.HelperCanonical | scripts/claude_host_artifacts.py:359-363 | A helper's planned name is canonical exactly when its base is neither "." nor "..". |
| RuntimeShape.SortedShape | scripts/claude_host_artifacts.py:478 | Sorting by parts puts the root first and every ancestor before what is under it. |
| RuntimeShape.ShapePlaceableOrNever | scripts/claude_host_artifacts.py:478-602 | A sorted plan whose links lead to planned files is, unless placeable, refused on every disk, at every destination and for every host. |
| LinkWitness.WrittenThroughLink | scripts/claude_host_artifacts.py:572-602 | For any names, the plan of a directory, a link to it and an entry under the link is not placeable and is written, the entry inside the directory. |
| RuntimeShape.PutAt | scripts/claude_host_artifacts.py:431 | A dict assignment replaces the value of its name where it stands and keeps every other. |
| PathParts.PartsOfRender | scripts/claude_host_artifacts.py:411-415 | A path rendered from parts parses back to them. |
| PathParts.PartsUnder | scripts/claude_host_artifacts.py:505-506 | Prefixing a name puts exactly one part in front. |
| ArtifactInventory.PartsKeyOrder | scripts/claude_host_artifacts.py:490 | The sorting key orders paths as Python orders their parts tuples. |
| ArtifactInventory.InventoryOf | scripts/claude_host_artifacts.py:488-498 | The loop computes the inventory: entries in order of their parts with the digests read, or a refusal. |
| ArtifactInventory.InventoryIsOrderedItems | scripts/claude_host_artifacts.py:488-512 | Sorting entries and then reading them equals reading them and then sorting the rows. |
| ArtifactInventory.CapturedEqualsFresh | scripts/claude_host_artifacts.py:501-512 | Prefixing a captured inventory equals reading the prefixed entries afresh. |
| ArtifactPlan.PlanInventoryIsFresh | scripts/claude_host_artifacts.py:551-567 | With stable sources plan's projected inventory is the inventory of its entries; the next rows say what both hold. |
| PlanContents.PlanHoldsRows | scripts/claude_host_artifacts.py:527-567 | The plan's inventory is, in path order, exactly "." 0o755, bwrap 0o555 with the pinned digest, vendor 0o555, vendor/claude 0o555 and runtime.json and launch-config.json 0o444 with the digests of their bytes, and each runtime entry under runtime/ with its own mode and content. |
| PlanContents.PlanHoldsEntries | scripts/claude_host_artifacts.py:527-557 | The plan's entries are these, one after another, with their contents. |
| PlanContents.PlanIsGivenIff | scripts/claude_host_artifacts.py:521-569 | A plan is made exactly when bwrap is a bounded file of the pinned digest and every runtime source is a bounded file. |
| ArtifactPlan.StagingInventoryIsFresh | scripts/claude_host_artifacts.py:639-654 | The staging inventory is the inventory of the staging entries. |
| PlanContents.StagingHoldsRows | scripts/claude_host_artifacts.py:648-654 | The staging inventory is, in path order, exactly "." 0o700, the policy file 0o444 with its digest, and the plan's rows under their prefix. |
| PlanContents.StagingHoldsEntries | scripts/claude_host_artifacts.py:639-645 | The staging entries are these, one after another, with their contents. |
| ArtifactPlan.DifferencesExact | scripts/claude_host_artifacts.py:630-636 | The differences are exactly the names on which the two dicts disagree in presence, mode, content or owner, in order. |
| ArtifactPlan.NoDifferenceIff | scripts/claude_host_artifacts.py:630-636 | No difference means the same names, each with its mode and content under the one owner. |
| PlanShape.StagingIsWellFormed | scripts/claude_host_artifacts.py:551-567 | The complete plan and its staging form are well formed when the runtime plan is. |
| FileSystem.ReverseChmodReaches | scripts/claude_host_artifacts.py:601-602 | In reverse order of creation each directory can still be reached when it is tightened. |
| FileSystem.FollowGrows | scripts/claude_host_artifacts.py:572-602 | A path that leads somewhere still leads there when more has been created, so a directory is tightened where it was made. |
| FileSystem.FollowStraight | scripts/claude_host_artifacts.py:572-600 | Through real directories a path leads to its own place. |
| FileSystem.FilePlace | scripts/claude_host_artifacts.py:572-600 | At every step of a plan that is written, before and after its turn, the place of a planned file holds no directory and no link. |
| FileSystem.LinkBlocks | scripts/claude_host_artifacts.py:572-600 | A link to the name of a planned file beside it leads to no directory at any step, so nothing under it can be created, whatever the order. |
| FileSystem.ParentsFirstBuilds | scripts/claude_host_artifacts.py:572-600 | With parents first and a free place every creation is permitted. |
| FileSystem.Disk.Rglob | scripts/claude_host_artifacts.py:608 | The scan gives every path reached through listable directories, once each. |
| Materialize.WriteFile | scripts/claude_host_artifacts.py:585-600 | However short the writes, a new file ends with the whole data and the planned mode, and nothing else changes. |
| TreeFacts.NameOkIff | scripts/claude_host_artifacts.py:577-580 | The names that are written: "." and every relative name without a part "..". |
| Materialize.Materialize | scripts/claude_host_artifacts.py:572-602 | It succeeds exactly when every name and source is admissible and every creation permitted, then leaves every planned node in its final form at the place to which its path led, links followed; what was there before never changes. |
| Materialize.PlaceableCompletes | scripts/claude_host_artifacts.py:572-602 | A plan of admissible names at different places, each in a directory planned before it, goes into a free place whatever its modes. |
| Materialize.FileAboveBlocks | scripts/claude_host_artifacts.py:572-602 | A file above another entry keeps the plan from being written, in either order. |
| Materialize.LinkAboveBlocks | scripts/claude_host_artifacts.py:572-602 | So does a link above another entry that leads to a planned file, in any order of the three. |
| Materialize.WellFormedCompletes | scripts/claude_host_artifacts.py:572-602 | A well-formed plan with readable sources goes into a free place whatever its modes. |
| ChangingFile.ReadBounded | scripts/claude_host_artifacts.py:161-187 | Whatever changes between the calls, the loop of reads gives what the reads from each moment give together, or a refusal for another file, kind, size or bound. |
| ChangingFile.SuccessIsOneFile | scripts/claude_host_artifacts.py:161-187 | Whatever changes between the calls, a success is bytes of the one regular file that lstat saw and open opened, each read at its own place and in order, within the bound and as many as fstat gave. |
| ChangingFile.GrowingIsExact | scripts/claude_host_artifacts.py:161-187 | Of a file that only grows after fstat, a success is exactly what it held at fstat. |
| ChangingFile.StillIsWhole | scripts/claude_host_artifacts.py:161-187 | However short the reads, a file that holds still is read whole, and refused exactly for its kind or its size. |
| ChangingFile.TornReadIsAccepted | scripts/claude_host_artifacts.py:161-187 | A file overwritten in place between two reads is accepted with bytes that it never held together. |
| ArtifactTree.TreeInventory | scripts/claude_host_artifacts.py:605-627 | One row for the top and for every path the scan shows, or a refusal exactly when one of them cannot be read. |
| ArtifactTree.TreeIsInventory | scripts/claude_host_artifacts.py:605-636 | No difference exactly when every path shown is an item as it should be and every item is shown. |
| ArtifactStage.StagedMatchesIff | scripts/claude_host_artifacts.py:657-665 | A written plan reads back without differences exactly when every entry is faithful to what was captured. |
| ArtifactCommands.Stage | scripts/claude_host_artifacts.py:657-670 | Success is only for a fresh tree equal to the staging inventory, hidden paths included where its directories are open to their owner; a well-formed captured plan succeeds exactly when its sources could be copied and every entry is faithful. |
| ArtifactCommands.NoDifferenceIsEquality | scripts/claude_host_artifacts.py:664-665 | An empty list of differences and equality with what the scan shows are the same. |
| ArtifactCommands.ShownIsWhole | scripts/claude_host_artifacts.py:605-636 | Where the inventory's directories are open to the reader, equality of what is shown is equality of the whole tree. |
| ArtifactCommands.Verify | scripts/claude_host_artifacts.py:713-729 | Success exactly when the installed tree is the plan's inventory under root, hidden paths included where its directories are open, the policy file is root's, read-only and has the reviewed digest, and root alone may write the directories above both. |
| TreeFacts.CustodyIff | scripts/claude_host_artifacts.py:282-289 | The destination is a plain name in a workspace of the operator's, closed to everybody else, below directories of root's or the operator's that nobody else may write. |
| TreeFacts.PolicyIff | scripts/claude_host_artifacts.py:720-724 | The policy file can be reached, is root's regular file of mode 0o444, is within 64 MiB and has the reviewed digest. |
| TreeFacts.TreeIsNodes | scripts/claude_host_artifacts.py:605-636 | A tree is an inventory exactly when each node is one of its items and each item is one of its nodes: same name, mode, owner and content, reachable, and readable within the bound of its name. |
| TreeFacts.StaysIff | scripts/claude_host_artifacts.py:612-614 | A link whose target meets no other link stays inside exactly when its parts, taken from beside the link or from the root, lead into the tree. |
| StableStage.RuntimePlanOpens | scripts/claude_host_artifacts.py:515-654 | The inventories of the program's own plan have only directories that every reader may list and search, and the staging root its owner. |
| StableStage.RuntimePlanIsSound | scripts/claude_host_artifacts.py:515-569 | The program's own plan is well formed and captured, with modes that read back, contents within the bounds and a link to a planned name beside it. |
| StableStage.OwnTreesAreWhole | scripts/claude_host_artifacts.py:657-729 | Of the program's own plan, equality of what a scan shows with the staging inventory, or under root with the plan's, is equality of the whole tree. |
| StableStage.StageStable | scripts/claude_host_artifacts.py:657-670 | With sources that hold still, staging the program's own plan into a free place succeeds and the tree is exactly the inventory. |
| StageWitness.SomePlanIsStaged | scripts/claude_host_artifacts.py:657-670 | A host, sources and a bare disk of any user meet everything that StageStable asks. |
| StableStage.WriteOnlyFileDoesNotMatch | scripts/claude_host_artifacts.py:605-636 | A well-formed plan with a file its owner may not read never reads back. |
| Json.LoadsDumps | scripts/m8_candidate_transfer.py:84-86 | What is printed loads back, with adjacent surrogate escapes merged. |
| JsonGrammar.LoadsIff | scripts/m8_candidate_transfer.py:137-141 | json.loads gives a value exactly for the texts of a grammar: sections 2 to 7 of RFC 8259 with NaN, the infinities, lone surrogates, the depth and the length of a decimal numeral as Python has them. |
| JsonPrinting.EscapeIs | scripts/m8_candidate_transfer.py:84-86 | How each character is printed: itself, one of seven short escapes, or units of four lowercase hexadecimal digits. |
| JsonPrinting.DumpsIs | scripts/_mutations.py:178-186 | The printed text of a value, with a space after every comma and colon, or none and a line feed in the canonical form. |
| CanonicalJson.LoadsCanonical | scripts/m8_candidate_transfer.py:84-86 | A canonical text loads as its value with the keys in order. |
| CanonicalJson.Unique | scripts/m8_candidate_transfer.py:114-119 | The dict of the pairs, refused exactly when a key repeats. |
| TransferCodec.HexInverse | scripts/m8_candidate_transfer.py:151-157 | Hex decoding undoes hex encoding. |
| TransferCodec.CommitTreeExact | scripts/m8_candidate_transfer.py:94-111 | A commit is accepted, with its tree, exactly when it is bounded, has the pinned id and the four-row shape. |
| TransferCodec.Parse | scripts/m8_candidate_transfer.py:134-160 | The checks and the loop over the hex fields compute the parsing that the next row characterises. |
| TransferCodec.ParseIsInverse | scripts/m8_candidate_transfer.py:122-160 | Parsing returns a pair exactly from the bytes emitted for that pair; the next rows say which pairs and which bytes. |
| TransferDocument.DocumentSays | scripts/m8_candidate_transfer.py:69-82 | The emitted document loads as an object of exactly eight members, each with its own value: schema 1, base, candidate, path, mode, the two hex texts, and the projection of six members with the four pins. |
| TransferDocument.DocumentIsText | scripts/m8_candidate_transfer.py:84-131 | The emitted bytes, character by character: the members in order of their names, compact, on one line. |
| TransferDocument.HexDigits | scripts/m8_candidate_transfer.py:127-130 | Two digits for each byte, the high one first. |
| TransferDocument.CommitTreeIs | scripts/m8_candidate_transfer.py:94-111 | A commit is accepted, with its tree, exactly when it is the four header lines on the pinned base, a blank line and a message, within 4096 bytes and with the pinned id. |
| TransferDocument.EmitsExactly | scripts/m8_candidate_transfer.py:122-131 | The exporter emits exactly this text, for exactly a pinned commit and a vector of the pinned digest within 32768 bytes. |
| TransferDocument.AcceptsExactly | scripts/m8_candidate_transfer.py:134-160 | The parser accepts exactly this text, for exactly these pairs. |
| TransferCodec.ArtifactInjective | scripts/m8_candidate_transfer.py:122-131 | One document carries one pair. |
| TransferCodec.ArtifactSize | scripts/m8_candidate_transfer.py:122-131 | The field bounds keep the document under 80 KiB for any path of at most 4096 plain characters. |
| TransferCodec.BoundNeverFires | scripts/m8_candidate_transfer.py:122-131 | The artifact bound refuses nothing the identities accept. |
| CaptureTransfer.DrainKeepsPipe | scripts/m8_candidate_transfer.py:284-300 | One chunk keeps the buffer a bounded prefix of the bytes read, and overfull means too many bytes. |
| CaptureTransfer.RunKeeps | scripts/m8_candidate_transfer.py:262-364 | Every run of every interleaving keeps the invariant. |
| CaptureTransfer.BuffersAreBoundedPrefixes | scripts/m8_candidate_transfer.py:284-300 | Buffers are prefixes within the bound plus one, overflow means more than the bound was delivered, and files equal buffers while no write failed. |
| CaptureTransfer.ReadersJoinBeforeHandlesClose | scripts/m8_candidate_transfer.py:302-357 | One reader for each pipe; with the handles closed, readers and process have been joined. |
| CaptureTransfer.FinishedRunsReport | scripts/m8_candidate_transfer.py:345-361 | A finished run has published its status, and complete means exit 0, both ends seen, nothing lost, no timeout, empty stderr and the whole parsed output; the next row says every field. |
| CaptureHistory.FinishedIsTold | scripts/m8_candidate_transfer.py:262-364 | Of every finished run, read off its events: the status is missing exactly when writing it failed, and otherwise its ten fields are those of the events; it is complete, and the artifact is the bytes of stdout, exactly when the child exited 0, all was received and written, and nothing was cut short. |
| CaptureHistory.BuffersAreTold | scripts/m8_candidate_transfer.py:284-300 | At every moment of every run the buffers are the bounded prefixes of what came through the pipes, and the files what the writes took of it until one failed: all of it if none did. |
| CaptureHistory.KillIsTold | scripts/m8_candidate_transfer.py:295-318 | A child is killed only for too much output, for a failed write or by cleanup; after any of these, a child that was there is killed or has ended. |
| CaptureTransfer.StepLowersRank | scripts/m8_candidate_transfer.py:262-364 | Every event but a chunk or a repeated cancellation takes something from what is still to happen, and none adds to it. |
| CaptureTransfer.RunsAreBounded | scripts/m8_candidate_transfer.py:262-364 | At most sixteen events besides those, on any interleaving. |
| CaptureTransfer.ReachableGoesOn | scripts/m8_candidate_transfer.py:262-364 | Every unfinished reachable state enables an event that is no cancellation, timeout or failure. |
| CaptureTransfer.ReachableCanFinish | scripts/m8_candidate_transfer.py:262-364 | From every reachable state such events alone finish the run. |
| CaptureTransfer.WholeArtifactCompletes | scripts/m8_candidate_transfer.py:326-361 | Every parseable document within the bound can be captured whole and completed. |
| CaptureTransfer.CompleteCaptureIsCanonical | scripts/m8_candidate_transfer.py:349-359 | What a complete capture published is a document the exporter emits. |
| Lines.SplitlinesAppend | scripts/_mutations.py:56 | Text that ends a line splits independently of what follows. |
| Lines.SplitlinesIff | scripts/_mutations.py:56 | str.splitlines gives exactly the lines of a text: CR LF is one break, and the last line needs none. |
| Evidence.ReportRoundTrip | scripts/_mutations.py:53-67 | A single report amid other lines is read back as printed exactly when no node id holds an adjacent surrogate pair. |
| Evidence.CollectionIff | scripts/_mutations.py:53-71 | A list is credited exactly when one line of the output starts with the marker and a space, and what follows loads as a nonempty list of nonempty strings. |
| Evidence.ReportLineIs | scripts/_mutations.py:178-186 | Each of the three reports is printed under its own marker, after one space, as a printed list of strings. |
| Evidence.PairedNodeIsRewritten | scripts/_mutations.py:53-67 | A node id with such a pair comes back as the one character it encodes. |
| Evidence.MissingReportRefused | scripts/_mutations.py:57-58 | Without a marker line nothing is credited. |
| Evidence.RepeatedReportRefused | scripts/_mutations.py:57-58 | With two marker lines nothing is credited. |
| SourceSnapshot.Snapshot | scripts/_mutations.py:37-43 | The loop feeds the digest the framed names and contents in order, or fails. |
| SourceSnapshot.StreamIs | scripts/_mutations.py:37-43 | What is fed are the frames of names and contents in order, exactly when each file can be read and framed. |
| SourceSnapshot.ListedNamesAre | scripts/_mutations.py:31-38 | The names are those listed between NULs, none empty, none twice, in ascending order. |
| SourceSnapshot.FrameIs | scripts/_mutations.py:41-42 | A frame is eight bytes that stand for the length, the most significant first, and the text. |
| SourceSnapshot.FrameInjective | scripts/_mutations.py:41-42 | A framed text can be cut off the front in one way only. |
| SourceSnapshot.SnapshotsEqualIffFilesEqual | scripts/_mutations.py:37-43 | Two listings feed the digest the same bytes exactly when they have the same files with the same contents. |
| MutationChild.Plugin.Session | scripts/_mutations.py:103-143 | A session's hooks leave the plugin holding what they report. |
| MutationChild.ParentReads | scripts/_mutations.py:178-187 | What the parent concludes from a child's output is what the child gathered. |
| MutationChild.ParentReadsNothing | scripts/_mutations.py:165-171 | A child that stopped before reporting gives the parent nothing. |
| MutationHarness.Run | scripts/_mutations.py:189-278 | The exit status and every launch and printed line of a run, and when an uncaught launch error ends it. |
| MutationHarness.ZeroIffAllReportedKilled | scripts/_mutations.py:265-278 | The status is 0 exactly when every listed mutant is reported KILLED, and the source held still if none is listed. |
| MutationHarness.EmptyListCanFail | scripts/_mutations.py:265-278 | With nothing listed a changed source still returns 1. |
| MutationHarness.VerdictsFollowSecondSnapshot | scripts/_mutations.py:265-277 | Every verdict comes after the second snapshot, and none says KILLED unless it matched the first. |
| MutationHarness.KilledMeansCaught | scripts/_mutations.py:204-261 | A killed mutant failed, by assertion in its call phase, a test that passed unmutated in an identical collection without errors; the next row is the equivalence. |
| MutationVerdict.KilledIffCaught | scripts/_mutations.py:204-261 | A mutant is killed exactly when its two children's hooks show it caught: a clean control that exits 0, a mutant that exits 1 with no errors but assertions, the same nonempty collection, and a test that passed in the one and failed by assertion in the call phase of the other. |
| MutationVerdict.GatherTells | scripts/_mutations.py:103-143 | What the plugin holds, read off the hooks both ways: who passed, failed and asserted, whether anything went wrong, and the last collection. |
| MutationVerdict.FateWithoutChild | scripts/_mutations.py:209-252 | A child that did not end by itself is no evidence: no control, no verdict, or the end of the run. |
| MutationVerdict.FirstOfSelection | scripts/_mutations.py:203-231 | A mutant is judged by the baseline of the first mutant with its test and the part of its target before the first colon. |
| MutationVerdict.ZeroIffAllCaught | scripts/_mutations.py:189-278 | The run succeeds exactly when its source holds still and every mutant is caught. |
| RunLog.NoControlIff | scripts/_mutations.py:203-237 | A mutant is given up before it is launched exactly when its control is not clean, passed no test or collected none. |
| RunLog.LogTells | scripts/_mutations.py:189-278 | What a run that is not cut short launches and prints, effect by effect and both ways; its verdict lines are one for each judged mutant, in their order, KILLED if it was killed and the source held still. |
| MutationHarness.RunFresh | scripts/_mutations.py:189-278 | The same run launching a baseline for every mutant: its status, launches and lines. |
| MutationHarness.MemoRefinesFresh | scripts/_mutations.py:145-234 | As a child reads only its module and test for a baseline, caching baselines gives the same exit status and verdict lines as that run. |
| MutationHarness.MemoNeedsDeterminism | scripts/_mutations.py:199-234 | Were a baseline to depend on more, the second mutant of a selection would be judged by the first one's control. |
| MutationHarness.OneBaselinePerSelection | scripts/_mutations.py:203-231 | A selection launches at most one baseline child. |
| MutationHarness.BaselineLaunches | scripts/_mutations.py:203-231 | A mutant's baseline child is launched once if it is first of its selection, and otherwise never. |
| PinRewrite.RestoreNormaliseIff | scripts/bump_codex_pin.py:192-195 | Normalising and restoring line endings is the identity exactly when the counts of LF and CRLF agree. |
| PinRewrite.ReplaceOnce | scripts/bump_codex_pin.py:197-199 | A single occurrence splits the text, and replacing it keeps both sides. |
| PinRewrite.RewriteKeepsTheRest | scripts/bump_codex_pin.py:192-202 | The file is the old step in its own endings between two stretches, and the result the new step between the same stretches. |
| PinRewrite.StyleIsKept | scripts/bump_codex_pin.py:192-202 | A CRLF file stays uniform and an LF file gets no CRLF, for a step without CR that does not start with LF. |
| PinRewrite.WorkflowFile.Apply | scripts/bump_codex_pin.py:184-212 | The file is replaced only while it is still the one read, with the rewritten bytes; every refusal leaves it as it is. |
| PinRewrite.RewrittenIff | scripts/bump_codex_pin.py:184-202 | Exactly when a rewrite is given, and what: refused for its endings only if the file has both kinds, for its step if the text does not hold it once, and otherwise the new step between the same stretches, if that reads as the new pin. |
| ReleaseSelect.VersionOfTag | scripts/bump_codex_pin.py:90-92 | A printed version parses back. |
| ReleaseSelect.TagOfVersion | scripts/bump_codex_pin.py:90-92 | A parsed stable tag prints back. |
| ReleaseSelect.RefVersionIff | scripts/bump_codex_pin.py:90-102 | A reference carries a version exactly when its name, with or without refs/tags/, is rust-v and the version's three numerals between dots, each short enough to convert. |
| ReleaseSelect.RefRefusedIff | scripts/bump_codex_pin.py:90-102 | A listing is refused exactly for a reference to a version with a longer numeral. |
| ReleaseSelect.VersionsAreDistinct | scripts/bump_codex_pin.py:95-102 | Distinct stable tags never share a version. |
| ReleaseSelect.StableTags | scripts/bump_codex_pin.py:95-102 | Exactly the tagged versions, each with the target of its last reference; refused exactly when a numeral cannot be converted. |
| ReleaseSelect.SelectGreatest | scripts/bump_codex_pin.py:117-132 | The choice is published and among the ten greatest, with every greater tag tried and unpublished; nothing is chosen only if there is no such release. |
| ReleaseSelect.SelectRequested | scripts/bump_codex_pin.py:117-132 | The requested version is chosen exactly when it is tagged and published. |
| ReleaseSelect.RequestableIff | scripts/bump_codex_pin.py:117-132 | What may be requested: three numerals between dots of a tagged version whose page is published. |
| ReleaseSelect.SelectListed | scripts/bump_codex_pin.py:95-132 | Over listed references: the ten greatest versions referred to are tried in descending order; the first page that is not plainly unpublished decides, a published one is chosen with the target of the last reference to it, and nothing is chosen only if a page cannot be read or all ten are unpublished. |
| ReleaseSelect.Peel | scripts/bump_codex_pin.py:135-144 | The commit reached through at most three annotated tags, and only that. |
| ReleaseSelect.Decide | scripts/bump_codex_pin.py:218-244 | A rewrite is only ever to a strictly greater stable version; the pinned version again is a no-op or refused for different bytes. |
| ReleaseSelect.MovesIff | scripts/bump_codex_pin.py:218-230 | The versions compared are those of the release's tag and of rust-v before the pinned text. |
| PlanManifest.ReadEntries | scripts/regen_plan_manifest.py:48-61 | The loop computes the ordered entries, or refuses. |
| ManifestRules.PlanPathIff | scripts/regen_plan_manifest.py:40-45 | A path may be named exactly when it is parts between slashes, none empty or a dot name, without backslash, colon, LF or CR, the last longer than .md and ending in it. |
| ManifestRules.BlankIs | scripts/regen_plan_manifest.py:53 | A line is blank exactly when it holds only white space as str.strip has it. |
| ManifestRules.DocumentIs | scripts/regen_plan_manifest.py:69-71 | An indexed path counts as a document exactly when its last part is longer than .md and ends in it. |
| ManifestRules.LineIs | scripts/regen_plan_manifest.py:50-60 | A line is an entry of 64 lowercase hexadecimal digits, two spaces and an accepted path; or blank; or refused, as is every line that starts with a conflict marker. |
| ManifestRules.EntriesIff | scripts/regen_plan_manifest.py:48-61 | A manifest is accepted exactly when its lines are blank or entries for different paths, and gives them in order. |
| ManifestRules.PrintIs | scripts/regen_plan_manifest.py:107 | The written text is the rows in order, each closed by LF. |
| PlanManifest.ReadBackIff | scripts/regen_plan_manifest.py:48-61 | A printed manifest reads back as the same ordered dict exactly when no path holds a line-breaking character. |
| PlanManifest.StagedDocuments | scripts/regen_plan_manifest.py:64-77 | The paths of the staged documents, refused exactly when one is unresolved, not regular or not canonical. |
| PlanManifest.ManifestFile.Refresh | scripts/regen_plan_manifest.py:80-111 | The file becomes the refreshed manifest, or a refusal leaves it as it is. |
| ManifestRules.RefreshedIff | scripts/regen_plan_manifest.py:80-103 | A refresh succeeds exactly when the named paths are accepted, nothing is unmerged, both manifests are accepted, the staged documents are regular, resolved and just the committed and named ones, the manifest names no other, and every committed document that was not named stands in the manifest and in the index with its committed digest. |
| ManifestRules.RefreshedIs | scripts/regen_plan_manifest.py:103-107 | It writes the committed entries in their order, then the new ones in the order of their first naming; the named with the digests of their staged bytes, the others with their committed ones. |
| PlanManifest.RefreshMapsStagedDocuments | scripts/regen_plan_manifest.py:88-107 | A refresh maps exactly the staged documents to the hashes of their staged bytes and keeps unnamed committed digests and the committed order. |
| PlanManifest.RefreshReadsBackIff | scripts/regen_plan_manifest.py:80-111 | What was written reads back exactly when no named path holds a line-breaking character. |
| PlanManifest.RefreshIsIdempotentIff | scripts/regen_plan_manifest.py:80-111 | A second refresh writes the same exactly under that condition, and is refused otherwise. |
| PlanManifest.ProgramRefreshIff | scripts/regen_plan_manifest.py:40-111 | Both hold of the script's own path test and its notion of a blank line. |
| PlanManifest.VerticalTabIsAccepted | scripts/regen_plan_manifest.py:40-45 | The path test admits a path that splitlines breaks. |
| VmAddress.V4Canonical | scripts/m8_vm_address.py:77-84 | An accepted IPv4 text is the canonical text of its address. |
| VmAddress.PrivateOctets | scripts/m8_vm_address.py:29-31 | The three networks of section 3 of RFC 1918 are the known ranges of the first two octets. |
| VmAddress.Parse | scripts/m8_vm_address.py:58-89 | An address is reported exactly when the well-formed report has one distinct private address; pending means it has none. |
| AddressReport.VerdictIs | scripts/m8_vm_address.py:58-89 | An address is found exactly when the bytes are an object of just a name, a state and addresses that reports this machine running with at most 64 addresses of at most 64 characters, of which one is private IPv4; pending exactly when none is; malformed when they are no such object. |
| AddressReport.RefusedReport | scripts/m8_vm_address.py:64-79 | Of such an object: another name, then another state, then an improper list is what it is refused for. |
| VmAddress.Observe | scripts/m8_vm_address.py:97-127 | One turn of the loop: which check ends it, and with what. |
| VmAddress.Discover | scripts/m8_vm_address.py:92-130 | The first observation with a verdict decides, after pending ones each followed by one sleep; sixty pending ones exhaust the budget. |
| VmAddress.DiscoveryIsBounded | scripts/m8_vm_address.py:92-130 | At most 60 queries, none at or past the deadline, each limited to the time left; each sleep a second, or the time left if that is less; never no_suitable_address. |
| VmAddress.AddressComesLast | scripts/m8_vm_address.py:92-130 | An address comes exactly from a last query parsed in time with one private address, after queries that all were pending. |
| HostBaseline.DecodeBaseline | scripts/m8_host_baseline_contract.py:95-112 | The loop computes the decoding that the next rows characterise. |
| HostBaseline.AcceptedIffEncoded | scripts/m8_host_baseline_contract.py:80-112 | Exactly the row permutations of the encoding of valid facts are accepted, as those facts. |
| BaselineRows.BaselineIff | scripts/m8_host_baseline_contract.py:80-112 | The accepted texts are nine rows in any order, each a fact's own name, a tab, its word and LF, for words of the proper shapes. |
| HostBaseline.EncodedIsAccepted | scripts/m8_host_baseline_contract.py:95-112 | Every encoding is at most 1314 bytes, so the 2048-byte limit refuses none. |
| HostBaseline.DecodeObservation | scripts/m8_host_baseline_contract.py:115-139 | Facts are returned exactly when nine affirmative queries answer with their values. |
| BaselineRows.ObservesIff | scripts/m8_host_baseline_contract.py:115-139 | The observations that give facts: exactly the nine names, each answered with its own word on one line, status 0 and nothing on stderr. |
| HostBaseline.DecodersAgree | scripts/m8_host_baseline_contract.py:95-139 | A decoded baseline and a decoded observation are of the same facts exactly when each answer, without its line feed, is the baseline's row for its key. |
| HostBaseline.CompareExact | scripts/m8_host_baseline_contract.py:148-151 | Comparison is symmetric, names exactly the differing facts, and says unchanged exactly on equal facts. |
| BaselineRows.ComparisonIs | scripts/m8_host_baseline_contract.py:148-151 | Each of the nine facts is named exactly when it differs, in the order of the rows, and the status is unchanged exactly when none does. |

## Left out

- ArtifactTree.ReadBoundedRegular: reads a tree that holds still while it is compared (`ChangingFile.StillIsBounded`); a file that changes while it is read is `ChangingFile.ReadBounded`, and a host source that changes between capture and copy is `when` in `Stage`.
- FileSystem.Disk.Rglob: the order of a scan and the directories it may not open are modelled; errors other than a missing permission are not.
- RuntimeShape.ShapePlaceableOrNever: says nothing of a plan with a link that leads to no planned file beside it; the script plans none (`RuntimeWritable.RuntimeLinks`).
- RuntimePlan.Plan: source_path, the ownership checks on every lookup step, and the loader's output with the checks on loader and binary before it runs are a parameter (`HostTree`) that holds still while the plan is made; `rglob` goes through real directories only.
- ArtifactCommands.Stage: reading back, a path that leads through more than `hops` links counts as a loop; umask, group bits, disk faults and the check that `source.git` is a directory are not modelled.
- StableStage.StageStable: asks that the policy, the helpers and the runtime document are within 64 MiB, which the script does not check before it reads them back.
- ArtifactCommands.Verify: covers the installed tree and the policy file; the configuration pin and the list of loaded AppArmor profiles are not part of this model.
- Json.LoadsDumps: numbers with a fraction or exponent keep their source text instead of Python's repr; no accepted artifact or report holds one.
- CaptureTransfer.RunKeeps: status.json can only be missing when writing it fails; nothing outside kills the child, and elapsed time is a timeout event that may come at any step.
- MutationHarness.MemoRefinesFresh: a child is a function of the parts of its mutant that its branch reads; that the files and the environment hold still meanwhile is what the second snapshot checks.
- MutationHarness.Run: elapsed times and diagnostic text are not part of the log; an OSError launching a mutant is not caught by the script and ends the run without a status.
- MutationChild.ParentReads: compiling the mutant and importing its module are not modelled; a child that stops before reporting is one that prints nothing under a marker.
- PinRewrite.WorkflowFile.Apply: the staging file and the write between the last comparison and the replace are not modelled; rendering and parsing a step are parameters.
- PlanManifest.ManifestFile.Refresh: Git is a record of its answers, already decoded; the file's bytes are its decoded text.
- PlanManifest.ReadEntries: `plan_path` and the test of a blank line are passed in; the script's own are `ManifestReader`.
- HostBaseline.DecodeBaseline: the nine names are a parameter with the properties that `NamesAreOk` proves of them; type checks on the arguments have no counterpart.
- VmAddress.Discover: the process, its arguments and the printed report are not modelled.
- `judge`, `read_selection`, `read_vendor`, `configuration_bytes`, `prove_sources` and `require_policy` in scripts/claude_host_artifacts.py: guards in sequence over values that appear here as parameters.
- `export_candidate` and `verify_candidate` in scripts/m8_candidate_transfer.py: sequences of Git commands.
- ReleaseSelect.Decide: covers bump's checks on versions and pins; the digests it fetches and compares, and its report, are not modelled.
- `package_digest`, `newest`, `published` and `fetch` in scripts/bump_codex_pin.py: HTTP, the catalog rule and guards over their results.
- `mutated` in scripts/_mutations.py: Python's import, inspection and compiler.
- The mutation inventories (scripts/check_*_mutations.py), CI scripts and the runtime package: data tables or code outside these scripts.
