# V-reflink: a verified model

V-reflink lets a guest ask its host to reflink (copy on write) a file or a directory tree inside a shared directory. The
guest turns two typed paths into a request, sends it as one length-prefixed JSON frame, and gets one frame back; on the
host a daemon checks the request, perhaps hands it to a worker process with another identity, resolves both paths below
the share root without following symbolic links, and copies one file or walks a tree.

This project models that path from end to end and proves what it promises.

- **The engine.** `FileTree` is the abstract file system (directories, files with link counts, symbolic links, other
  nodes; every node's parent is a directory). `Kernels.Kernel` is the same as one process sees it: mutable, behind the
  `os` calls the code makes, any of which may fail for an unknown reason at any time, and with the owner bits of
  directories the process created enforced. On top of it stand `Resolve`, `Reflinks`, `TreeWalks`, `Services` and
  `StartupProbe`, method for function of the source, each against an exact specification.
- **Many workers.** `Workers` is a transition system in which any number of requests make their calls in any
  interleaving, with any failures. `Views` follows one worker among the others, `TreeProgress` says how far a recursive one
  has come, and `Interleavings` what a reported success or failure then means. `WorkerTermination` bounds the calls a
  request can make. `Checks` follows a worker through its checks while others work; `Successes` says when a request
  succeeds among others. `Races` is the case of several requests for one destination. `Reasons` says where
  the error of every failing request came from. `SoloTurns` and `SoloRequests` tie the machine back to the sequential
  engine: left alone, a worker passes the checks of `Services`, makes the walk of
  `TreeWalks` turn by turn, and gives the answer of `Services`.
- **The plumbing.** `Paths` and `Validate` are the path algebra of both ends; `Framing` the frames; `Protocol` the error
  trees and their classification; `Auth` the token map and the identity of a worker process; `Daemon` the routing, the
  worker as a proxy, and a connection; `Client` the guest's exchange and its dialing race.

## How the model reads

- A path is the sequence of its components; a place below the root is the root's path followed by names.
- `filepath.WalkDir` is a loop over an explicit stack, reading each directory live just after its callback.
- `securejoin.SecureJoin` is a library function that is not part of this repository; it is modelled as a scoped
  resolver: a link's target goes before what remains of the path, an absolute target restarts at the root, `..` at the
  root stays there, missing components are kept, and at most 255 links are followed.
- Unknown failures are an oracle indexed by kind of call and by time. They never pretend that a name exists or does not.
  "Quiet" means that none happens from some time on.
- `slices.Sort`, `strings.TrimSpace` and `filepath.Clean`, `Join` and `Rel` are written out; JSON is a parameter.
- A worker's `SecureJoin` is one step of `Workers`: by `Resolve.SecureJoin` its result is the lexical path whenever the
  checks that follow pass, it gives up as `Resolve` says, and it depends on symbolic links only, which no worker makes or
  removes (`Workers.ResolvingIsOneStep`).
- The machine of `Workers` does not ask whether owner bits let a call through: a refusal is one of the unknown failures.
  The directories a recursive worker made itself never refuse it (`TreeProgress.OwnModesAllowNext`).

## What the proofs found

- Nothing excludes a destination strictly inside the source of a recursive request: copying the share's root to a new name
  in the share passes every check (`Findings.ShareIntoItself`). The walk then follows its own output. A walk that can start
  comes to an end if and only if its destination is not inside its source, or something under the source that cannot be
  cloned comes, in walk order, before the destination (`WalkTermination.WalkEndsIff`); otherwise, as long as paths may grow,
  it never ends, and on Linux it stops when a path becomes too long. The tree theorems require exactly that: that a walk
  that can start comes to an end. A destination equal to the source is refused, because it is taken
  (`Services.SamePlaceIsRefused`).
- A path that runs through more than 255 links is answered EPERM, "path must stay within the shared root", although every
  other path with a link is answered EINVAL; a link to itself will do (`Findings.LinkToItself`, `Findings.LinkToNowhere`).
- A destination below a regular file is reported with the source's message: the raw ENOTDIR is not counted as missing by
  `os.IsNotExist`, but is by the protocol, so the guest reads "source not found" (`Findings.DestinationBelowFile`).
- On a quiet file system the answer "destination parent must be a directory" cannot occur (`Resolve.CheckDestination`).
- When only the last close of a new file fails, an error is returned and the finished file stays
  (`Reflinks.Reflink`).
- A stream cut exactly after a frame's header is reported as an orderly end, not as a cut frame
  (`Framing.TruncatedFrame`).
- A dial function that returns a connection together with an error makes the client lose the connection if it was still
  waiting (`Client.ConnectionWithErrorLeaks`); this is the only way to lose one (`Client.NoConnectionLeaks`).
- The default dial hands over whatever pointer `vsock.Dial` returns, as an interface. If that is nil when dialing fails, it
  is not the nil interface, and the goroutine left behind by a caller who gave up calls `Close` on it: the process panics
  exactly if the caller gave up and the dial then failed, while the process was still there (`Client.CrashesExactlyIf`,
  `Client.FailedDialCrashes`).

## Model

| member | source | states |
|---|---|---|
| Protocol.IsMeansSomeCause | internal/protocol/protocol.go:126-142 | comparing an error tree with a sentinel asks whether some leaf of it, however wrapped or joined, answers for that sentinel |
| Protocol.CodeIsStrongestCause | internal/protocol/protocol.go:126-142 | the code of any error tree is that of its strongest cause, in the order ENOENT, EEXIST, EPERM, EOPNOTSUPP, EINVAL |
| Protocol.JoinTakesStrongerClass | internal/protocol/protocol.go:126-142 | joining two errors gives the stronger of their two classes |
| Protocol.JoinedResponse | internal/protocol/protocol.go:99-142 | in a join, a coded error on the left decides the response, else a coded one on the right, else the stronger of the two classes does |
| Protocol.ValidateRequest | internal/protocol/protocol.go:62-89 | accepted exactly if the operation is "reflink", the version 1 or 2, a token is there exactly in version 2, and source and destination are non-empty and different texts; otherwise EINVAL with the first complaint |
| Protocol.FirstComplaint | internal/protocol/protocol.go:62-89 | each of the seven complaints, word for word, is the response to a request no earlier one applies to |
| Protocol.LeafAnswer | internal/protocol/protocol.go:126-162 | code and message for every error number: the four classes have their one text, the rest answer EINVAL with the error's own text |
| Protocol.DecimalMeans | internal/protocol/protocol.go:64 | the numeral written into a message stands for the number |
| Paths.CleanIdempotent | internal/validate/validate.go:74 | cleaning a path twice is cleaning it once, and keeps its components and whether it is absolute |
| Paths.ComponentsOfRender | internal/validate/validate.go:222 | splitting the text of a canonical path gives back the components it was made of |
| Paths.RenderInjective | internal/validate/validate.go:74 | two canonical paths with one text are the same path |
| Paths.CleanFollows | internal/validate/validate.go:38 | cleaning an absolute path names the place one reaches by following it component by component |
| Paths.CleanStaysInside | internal/validate/validate.go:74-84 | a relative path cleans to one without `..` exactly when no prefix of it climbs above its start, and then names the same place from every directory |
| Validate.NormalizeAccepts | internal/validate/validate.go:69-85 | accepted exactly when non-empty, relative, and in no prefix do the `..` outnumber the ordinary names |
| Validate.NormalizeSays | internal/validate/validate.go:69-85 | an empty path is refused with EINVAL, an absolute one and one that leaves the root with EPERM, each in its words, and nothing else is refused |
| Validate.ValidRequest | internal/validate/validate.go:16-30 | accepted exactly if the request is well-formed and both paths stay inside; otherwise the first complaint about the request, the source or the destination |
| Validate.NormalizeMeaning | internal/validate/validate.go:69-85 | accepted output is relative, has no `..`, is a fixed point, and names the same place |
| Validate.NormalizeDecidesSamePlace | internal/validate/validate.go:69-85 | two accepted spellings have one normal form exactly when they name one place |
| Validate.RelIsPrefixTest | internal/validate/validate.go:43-46 | the relative path from one directory to another avoids `..` exactly when the first is a prefix of the second, and then leads there |
| Validate.NormalizeRootPlace | internal/validate/validate.go:203-214 | the normalised root is absolute, clean, and the place the given root names from the working directory |
| Validate.GuestArgumentPlace | internal/validate/validate.go:61-64 | the guest path built from an argument is absolute and names the place the argument names from the current directory |
| Validate.GuestCorrespondence | internal/validate/validate.go:32-67 | an argument is accepted exactly when it names the mount root or something below; the mount root followed by the result is that place; the host's normalisation leaves the result alone |
| Validate.GuestSays | internal/validate/validate.go:32-67 | why an argument is refused: empty, EINVAL; off the mount, EPERM; nothing else is |
| Validate.BuiltRequestAccepted | cmd/vreflink/main.go:117-141 | a request the guest builds names the two places asked for and passes the host's validation exactly when they differ |
| Validate.RequestIsBuilt | cmd/vreflink/main.go:117-141 | a request is built exactly if both arguments are on the mount, in version 2 exactly with a token; the source is complained about first |
| Kernels.Kernel.Lstat | internal/tree/tree.go:59-62 | looks at a node without following links, or fails with the error of the first obstacle |
| Kernels.Kernel.ReadDir | internal/tree/tree.go:50 | the contents of a directory in lexical order, whatever order they are kept in |
| Kernels.Kernel.Mkdir | internal/tree/tree.go:41-43 | creates exactly one directory where nothing was, with the mode under the umask, or changes nothing |
| Kernels.Kernel.OpenExcl | internal/service/service.go:185-188 | creates exactly one empty file where nothing was, or changes nothing |
| Kernels.Kernel.Clone | internal/service/service.go:200-202 | the destination's content becomes the source's, or nothing changes |
| Kernels.Kernel.Chmod | internal/tree/tree.go:111-113 | changes one node's mode bits and nothing else, if every directory above it lets the process through |
| Kernels.Kernel.Remove | internal/service/service.go:196 | removes exactly one name, never a directory with contents, or changes nothing |
| Resolve.SecureJoin | internal/validate/validate.go:195-198 | the result is below the root, made of ordinary names, and free of links, for every text and file system; the lexical join if the text is a clean link-free path; exactly what the scoped resolver says; it fails only if the resolver gives up or a look failed for an unknown reason |
| Resolve.Advance | internal/validate/validate.go:195-198 | one component of the scoped join: link-freedom is kept and the resolver's final answer unchanged |
| Resolve.ResolvedByLinks | internal/validate/validate.go:195-198 | where a path leads depends on the symbolic links of the file system alone |
| Resolve.LexicalResolves | internal/validate/validate.go:195-198 | a path without links resolves to the lexical join and never exhausts the link budget |
| Resolve.RelativeLink | internal/validate/validate.go:195-198 | a relative link leads on from the directory it is in, and the rest of the path follows its target |
| Resolve.AbsoluteLink | internal/validate/validate.go:195-198 | an absolute link leads on from the share root |
| Findings.ChainOfLinks | internal/validate/validate.go:195-198 | a chain of links is followed to its end if it has at most 255 of them, and given up otherwise |
| Resolve.RejectSymlinkComponents | internal/validate/validate.go:216-244 | acceptance means the whole way is link-free and complete, the last component possibly missing in a directory that is there; the outcome is exactly the first objection on the way, or blames a look that failed for an unknown reason |
| Resolve.ResolvePath | internal/validate/validate.go:184-201 | root first, then path; on success the joined path of a link-free path is the lexical one; it fails, with EPERM, only if the resolver gives up or a look failed |
| Resolve.SourceFoundIsNotRefused | internal/validate/validate.go:87-96 | a source that is there and no link is never refused on its way |
| Resolve.ResolveSource | internal/validate/validate.go:87-106 | success means the node at root plus cleaned path is there, is no link, and is the one described; a failure is answered as the file system deserves, which it is exactly if that node is not there, or blames a look that failed for an unknown reason |
| Resolve.CheckDestination | internal/validate/validate.go:118-146 | the name must be free and below the root; the second resolution yields the lexical parent; a refusal means the name cannot be created and has the response for a taken name, a missing parent or a parent below something else, or blames a look that failed for an unknown reason |
| Resolve.CheckParent | internal/validate/validate.go:124-144 | the parent of a missing name, resolved again, is the lexical one; accepted only if it is a directory; refused only as missing, when it is, or blames a look that failed for an unknown reason |
| Resolve.FreeIsNotRefused | internal/validate/validate.go:108-116 | a destination that can be created is never refused on its way |
| Resolve.ResolveDestination | internal/validate/validate.go:108-147 | success means the name at root plus cleaned path can be created and the path returned with it is its parent; a failure is answered as the file system deserves, which it is exactly if the name cannot be created, or blames a look that failed for an unknown reason |
| Resolve.DestinationRefusalSays | internal/validate/validate.go:108-147 | what is said of a destination named without links: EEXIST if it is there, ENOENT for its parent if a directory above it is missing, ENOENT in the words for a source if something above it is no directory |
| Reflinks.Reflink | internal/service/service.go:178-210 | the error is that of the first failing call; if open, create, clone and chmod succeed the destination is the complete copy with the permission bits asked for; if one fails nothing is left as long as removing works |
| Reflinks.FillNew | internal/service/service.go:185-210 | the same from the exclusive create on |
| Reflinks.Fill | internal/service/service.go:190-209 | the same with both files open, deferred close and removal included |
| Reflinks.CopyFaultAnswers | internal/service/service.go:178-210 | the copy of a file that is there to a free name fails exactly if open, create, clone, chmod or close does, and is answered for the first of them |
| Reflinks.CloneErrorAnswers | internal/service/service.go:212-223 | a failing clone is answered by its error number; EOPNOTSUPP and EXDEV as a reflink that is not supported |
| Reflinks.RemovableAgain | internal/service/service.go:195-197 | whoever could create the file can remove it, whatever was written to it |
| WalkOrder.PreorderIsTheSortedSubtree | internal/tree/tree.go:50 | the walk order is the one strictly ascending list, component by component, of exactly a node and everything below it |
| WalkOrder.PendingStep | internal/tree/tree.go:50 | replacing a directory by its contents on the stack leaves the order of what is still to come unchanged |
| WalkOrder.ContentsUnique | internal/tree/tree.go:50 | a directory has one sorted listing |
| WalkOrder.PathLessMeans | internal/tree/tree.go:50 | the order of the walk: the first component in which two paths differ decides, or else the ancestor comes first |
| FileTree.NameLessMeans | internal/tree/tree.go:50 | the order of names: the first character in which they differ decides, or else the shorter one comes first |
| TreeImages.BuiltGrows | internal/tree/tree.go:74-87 | creating the copy of the next entry extends a partly built image by exactly that entry |
| TreeImages.PendingModesSorted | internal/tree/tree.go:78-81 | the list of pending modes is strictly ascending, hence free of duplicates, with parents before children |
| TreeImages.PendingModesMembers | internal/tree/tree.go:78-81 | the list holds exactly the copied directories, each with its source's exact mode |
| TreeImages.CompleteIsClone | internal/tree/tree.go:31-102 | an image of all entries with all modes restored is an isomorphic copy, and everything outside it is unchanged |
| TreeImages.CloneMeaning | internal/tree/tree.go:31-117 | part by part what a clone is: directories with permission bits, setuid, setgid and sticky of their source; files with content and permission bits, nothing above them, one name |
| TreeImages.RejectionSays | internal/tree/tree.go:71-90 | what cannot be cloned is a link, an irregular node or a file with several names, each with its response |
| TreeWalks.JoinErrorsAnswer | internal/tree/tree.go:93-99 | the joined error of a run is answered as the walk's own if that is coded, else as the chmod's if that is, else with the stronger class |
| TreeWalks.VisitEntry | internal/tree/tree.go:50-91 | the callback creates exactly the copy of the entry, in its first form, and records a directory with its exact mode; or it fails with the entry's own rejection or for a call that failed, and is answered by that call's error number |
| TreeWalks.SourceIsFrozen | internal/tree/tree.go:50-91 | whatever has been written, the source and its listings are as at the start, although the walk reads the live file system |
| TreeWalks.NextIsFree | internal/tree/tree.go:69-87 | the next entry's copy has a directory to go into and its name is free |
| TreeWalks.Turn | internal/tree/tree.go:50-91 | one turn of the walk moves exactly one entry from what is to come to what is done, or stops with the prefix intact, for the entry's own reason or for a call that failed |
| TreeWalks.Walk | internal/tree/tree.go:45-91 | terminates by the number of entries to come; every outcome is the image of a prefix of the walk; success is the whole walk; it stops only at an entry that cannot be cloned, with that entry's error, or for a call that failed, answered by its error number |
| TreeWalks.AncestorsStillOpen | internal/tree/tree.go:108-117 | when a directory's mode is set, every directory above it is as it was before the restoring, the temporary mode of those in the copy included, and lets the process through |
| TreeWalks.RestoreDirectoryModes | internal/tree/tree.go:108-117 | what is restored is a suffix of the list; for all modes, 0000 included, everything is restored unless a chmod fails for an unknown reason |
| TreeWalks.ReflinkTree | internal/tree/tree.go:31-102 | nothing at all, or an exact prefix; success is an isomorphic clone; the answer is the walk's error if that is coded, else the joined class; it is the first unclonable entry's or that of a call that failed; with none failing it succeeds exactly for a directory of clonable nodes and a free destination, else stops at the first unclonable entry with every mode restored; also for a destination inside the source, if something unclonable comes first |
| TreeWalks.LeavesMeaning | internal/tree/tree.go:50-101 | entry by entry what a stopped run leaves: closed under parents, files finished, directories exact in the restored suffix and temporary before it, all exact if no chmod failed |
| TreeWalks.CompletesIsClone | internal/tree/tree.go:31-102 | a run that went to the end is a clone |
| TreeWalks.StopsAtFirstUnclonable | internal/tree/tree.go:71-90 | the entry a quiet walk stops at is the first in lexical order that cannot be cloned |
| WalkTermination.WalkEnds | internal/tree/tree.go:50-91 | with the destination not in the source and every node clonable, the walk ends after exactly one turn for each entry below the root |
| WalkTermination.WalkNeverEnds | internal/tree/tree.go:41-91 | with the destination strictly inside the source and nothing before it that cannot be cloned, after every number of turns an entry is left and none failed |
| WalkTermination.WalkEndsIff | internal/tree/tree.go:41-91 | a walk that can start ends, in success or at an entry that cannot be cloned, if and only if the destination is not strictly inside the source or such an entry comes before it in walk order |
| Findings.ShareIntoItself | internal/service/service.go:151-168 | the request that copies the share's root to a free name inside it passes every check, and its walk ends exactly if something that cannot be cloned comes before that name |
| Findings.LinkToItself | internal/validate/validate.go:195-198 | a link to itself exhausts the resolver and is answered EPERM |
| Findings.LinkToNowhere | internal/validate/validate.go:238-240 | a link that leads nowhere is answered EINVAL |
| Findings.DestinationBelowFile | internal/validate/validate.go:226-236 | a destination below a regular file is refused as a missing source |
| Services.CheckSource | internal/service/service.go:129-141 | the source is there and of the right kind; a failure has the response that a missing or unfit source deserves, or blames a look that failed for an unknown reason |
| Services.UnfitMeaning | internal/validate/validate.go:149-182 | the checks of kind and link count accept exactly single-named regular files, or directories, and answer EINVAL otherwise |
| Services.SourceIsRefusedFirst | internal/service/service.go:129-164 | whatever the destination, an unfit source is what a sound request is refused for: too many links EPERM, a link EINVAL, missing ENOENT, the wrong kind or several names EINVAL, each in its words |
| Services.CheckRequest | internal/service/service.go:129-161 | all checks before the first creation: passed only if the request can start; a failure means it cannot and has its response, or blames a look that failed for an unknown reason |
| Services.ReflinkSingle | internal/service/service.go:129-149 | success is the copy and nothing else; failure changes nothing while removing and closing work; a copy that failed is answered for the first of its calls that did |
| Services.ReflinkTreeRequest | internal/service/service.go:151-168 | the same for a tree, with what a stopped run leaves and the error it is answered with |
| Services.Execute | internal/service/service.go:116-127 | success means carried out, of a well-formed request; a request that cannot start changes nothing; a failing file leaves nothing if removing and closing work, a failing tree nothing or an exact prefix; every error is the refusal deserved, the first failing call's of the copy, the tree run's, or a failed look's |
| Services.QuietlyExecuted | internal/service/service.go:116-168 | with no call failing for an unknown reason, success exactly for acceptable requests, for every refusal its exact response, and for a tree the response for its first unclonable entry |
| Services.UnsupportedIsSaid | internal/service/service.go:200-217 | if clones fail with EOPNOTSUPP or EXDEV and nothing else does, a file that could be copied is answered EOPNOTSUPP, "reflink is not supported for this source and destination" |
| Services.SamePlaceIsRefused | internal/service/service.go:116-168 | executing a request whose two spellings name one path, recursive or not, fails and changes nothing, and quietly says that the destination exists if the source fits |
| StartupProbe.CreateTemp | internal/service/service.go:60-63 | a new file at a free name in the directory, or nothing |
| StartupProbe.Probe | internal/service/service.go:77-111 | when it returns, wherever it stopped, the share differs from before by at most two files; success means that the reflinker was tried and worked; a failure names what failed |
| StartupProbe.CleanUp | internal/service/service.go:67-75 | from every point the probe can stop at, the share is as before if removing works |
| StartupProbe.ValidateShareRoot | internal/service/service.go:36-114 | for every combination of failures and every reflinker that touches only its destination the share is as before, provided removing works; success means that the root is a directory and the reflinker was tried in it and worked; a failure says what failed, and of the service's own reflink that it is not supported exactly if its first failing call says EOPNOTSUPP or EXDEV; with no call failing, success exactly for a directory and a reflinker that succeeds |
| StartupProbe.VerdictOnClone | internal/service/service.go:100-111 | a clone failing with EOPNOTSUPP or EXDEV is reported as unsupported, with any other error number as a failed probe |
| Workers.StepIsLegal | internal/server/server.go:45-55 | every call a worker makes creates where nothing is, or changes or removes a node of its own |
| Workers.StepKeepsHolding | internal/service/service.go:178-210 | after every step a worker holds only files and directories it created and still owns |
| Workers.InvAlways | internal/server/server.go:45-55 | in every interleaving: nodes there from the start are untouched, every other node has one owner, every worker holds only its own |
| Workers.NoClobber | internal/service/service.go:178-210 | no step of any worker touches what was there or what another created; every cleanup removal and every chmod hits only the worker's own |
| Workers.OwnerIsForLife | internal/server/server.go:45-55 | while a node exists its owner does not change |
| Workers.ResolvingIsOneStep | internal/validate/validate.go:195-198 | in every interleaving the symbolic links are those of the start, so that resolving a path gives the same result whenever it is done |
| Workers.SuccessOwnsDestination | internal/service/service.go:129-168 | a worker that reports success owns its destination, which exists and is of the right kind |
| Workers.AtMostOneSuccess | internal/validate/validate.go:118-122 | of all requests for one destination at most one succeeds, whatever fails |
| Views.NothingAppears | internal/server/server.go:45-55 | in every interleaving, where nobody was asked to write nothing new appears |
| Views.StepOnView | internal/server/server.go:45-55 | what was there from the start together with a worker's own nodes is changed by that worker's steps alone, and by them as the whole is |
| TreeProgress.OwnStep | internal/tree/tree.go:31-102 | each call of a recursive worker, failing or not, keeps its view what it should be: the image of a prefix of the walk, with at most one file in the making or left over, then with a suffix of modes restored; at success the clone, at failure what a failing tree leaves |
| TreeProgress.OwnModesAllowNext | internal/tree/tree.go:74-117 | wherever a recursive worker stands, its next creation, removal or chmod is one that the modes of the directories it made allow |
| Interleavings.SuccessfulTreeIsClone | internal/service/service.go:151-168 | a recursive request that reports success, among any others and any failures, has under its destination the finished copy of every node of its source, all its own, and made nothing else, provided nobody was asked to write below its source |
| Interleavings.FailedTreeIsPrefix | internal/tree/tree.go:50-101 | a recursive request that reports failure, among any others and any failures, made nothing or left an exact prefix of the walk; with every mode exact if none of its chmods failed, and nothing left over if no close or remove of its own did |
| Interleavings.FailedTreeMeaning | internal/tree/tree.go:50-101 | entry by entry, in the file system as it then is, what such a request left |
| Interleavings.SuccessfulFileIsCopy | internal/service/service.go:129-149 | a single-file request that reports success, among any others and any failures, has at its destination its own copy of the source with the source's permission bits |
| Interleavings.FailedFileLeavesNothing | internal/service/service.go:178-210 | a single-file request that reports failure, among any others and any failures but those of its own closing and removing, leaves nothing |
| Checks.CheckStep | internal/validate/validate.go:87-147 | while anything is added around it, a worker with a request that could be started on passes each check, or finds its destination taken and says so |
| Successes.WelcomeRequestSucceeds | internal/server/server.go:45-55 | in every interleaving, whatever fails for the others, a request that could be carried out at the start and none of whose own calls fails for an unknown reason has succeeded once it has its answer, and has its answer once it was let run more often than its budget; nobody being asked to write below its source, and nobody else at, above or below its destination |
| Successes.AcceptableIsWelcome | internal/service/service.go:116-168 | the requests so carried out include every one the sequential specification accepts |
| WorkerTermination.TreeUsesUp | internal/tree/tree.go:31-117 | each call of a recursive worker, failing or not, uses up some of a measure made of the entries to come and the modes to restore |
| WorkerTermination.EveryRequestEnds | internal/server/server.go:45-55 | in every interleaving, with any failures, a request that was let run more often than its budget has its answer |
| Races.RaceStep | internal/service/service.go:185-188 | every step of a race keeps it one: nobody has the destination yet, or one winner has and all others lose |
| Races.ExactlyOneWins | internal/service/service.go:185-188 | when every contender has its answer exactly one succeeded, the destination is the copy of its source, all others were told it exists, nothing else changed |
| WorkerTermination.RaceIsDecided | internal/service/service.go:185-188 | and every contender has its answer once it was let run often enough |
| SoloTurns.SoloTurnIsMove | internal/tree/tree.go:50-91 | the calls a worker makes for one entry add up to one turn of the sequential walk |
| SoloTurns.SoloTurnsAreTurns | internal/tree/tree.go:50-91 | after any number of turns the undisturbed worker and the sequential walk have the same file system, stack and pending modes |
| SoloTurns.SoloRestores | internal/tree/tree.go:108-117 | the worker's chmods, one by one, restore every recorded mode |
| SoloTurns.SoloWorkerClones | internal/tree/tree.go:31-102 | an undisturbed recursive worker that has passed its checks reaches success and leaves the clone that the sequential operation promises |
| SoloRequests.SoloChecks | internal/service/service.go:129-164 | an undisturbed worker, from its first call, passes its checks exactly if the request can start, and is otherwise answered as the sequential specification says, a path with too many links included |
| SoloRequests.SoloRequestIsCarriedOut | internal/service/service.go:116-168 | an undisturbed worker carries out every acceptable request, file or tree |
| Reasons.ErrorHasReason | internal/service/service.go:116-210 | in every state of the machine, the error a worker comes to have is what its request deserves there or that of its own call which just failed |
| Reasons.ErrorIsCarried | internal/tree/tree.go:92-101 | from then on the worker carries that error to its answer, a later failing chmod joined to it |
| Reasons.FailureHasReason | internal/server/server.go:45-55 | in every interleaving, with any failures, a request that failed is answered for an error that arose at one of its own calls and was deserved there |
| Framing.LengthRoundTrip | internal/framing/framing.go:24-25 | the big-endian length loses nothing, in both directions, its first byte being the most significant |
| Framing.FrameRoundTrip | internal/framing/framing.go:39-68 | a frame is read back whatever follows it, and exactly 4 plus length bytes are consumed |
| Framing.StreamRoundTrip | internal/framing/framing.go:14-68 | any list of values written one after the other is read back |
| Framing.TruncatedFrame | internal/framing/framing.go:39-53 | no proper prefix of a frame is accepted; which of the two end-of-stream errors is given |
| Framing.FrameVerdict | internal/framing/framing.go:39-68 | why a whole frame is not accepted: a payload longer than 1 MiB, which is not read; no JSON; or anything after the value, "unexpected trailing JSON" |
| Framing.SendableMeans | internal/framing/framing.go:14-22 | a value is sent exactly if its text has at most 1 MiB |
| Framing.AcceptedIsFrame | internal/framing/framing.go:39-68 | whatever is accepted is one frame within the limit, and nothing behind it is looked at |
| Framing.FramesAreSelfDelimiting | internal/framing/framing.go:24-31 | no frame is the beginning of another |
| Framing.Conn.Read | internal/framing/framing.go:41 | one read hands over the next bytes in order, as many as one piece and the buffer allow |
| Framing.Conn.ReadFull | internal/framing/framing.go:50-53 | the buffer is filled with exactly the next bytes, however they are cut up, or the stream's end is reported |
| Framing.PutUint32 | internal/framing/framing.go:24-25 | the header array holds the big-endian length |
| Framing.Write | internal/framing/framing.go:14-33 | nothing is sent, or the value's one frame, within the limit, or the beginning of it if the connection gives out |
| Framing.ReadWithLimit | internal/framing/framing.go:39-68 | what is read and what is left depend on the bytes alone, not on how they were cut up |
| Auth.TrimSpaceMeaning | internal/auth/tokens.go:43 | trimming removes exactly the white space at both ends |
| Auth.SpacesListed | internal/auth/tokens.go:43 | white space is the 25 characters that Unicode lists |
| Auth.NormalizedMeaning | internal/auth/tokens.go:91-110 | exactly the groups other than the primary one, without repetition, each at its first occurrence, in order |
| Auth.NormalizeGroups | internal/auth/tokens.go:91-110 | the loop computes that list |
| Auth.ScanFindsTheEntry | internal/auth/tokens.go:82-89 | in an orderly configuration a search finds the one entry with the token, wherever it stands, and only such |
| Auth.NewTokenMapFromEntries | internal/auth/tokens.go:29-66 | accepted exactly when every entry is complete and no token repeats; lookups then agree with the plain search; otherwise the error of the first entry that has one |
| Auth.DisorderSays | internal/auth/tokens.go:42-55 | an entry is refused for the first thing it lacks, token, uid, gid, or else for its repeated token, in the words of the source |
| Auth.CurrentProcessIdentity | cmd/vreflinkd/runtime.go:165-190 | the process's user and group, and its other supplementary groups |
| Auth.SortedIsUnique | cmd/vreflinkd/runtime.go:192-202 | two sorted lists with the same elements are equal, so comparing sorted copies compares the groups |
| Auth.SameGroupSet | cmd/vreflinkd/runtime.go:192-202 | true exactly when both lists hold the same groups equally often |
| Auth.CredentialForIdentity | cmd/vreflinkd/runtime.go:151-163 | credentials are inherited exactly when user, group and groups already match, else set to the identity's |
| Auth.WorkerAccount | cmd/vreflinkd/runtime.go:84-90 | in both branches the child runs with the identity's user, group and set of groups |
| Auth.EntryDecidesAccount | internal/auth/tokens.go:57-62 | running as the identity of a token is running with the user, group and set of groups written in its entry |
| Daemon.RunWorker | cmd/vreflinkd/runtime.go:204-211 | an unreadable request changes nothing and is answered EINVAL; a readable one is executed and its response sent |
| Daemon.ProxyIsTransparent | cmd/vreflinkd/runtime.go:138-148 | for every error tree, the response made from the error returned over the pipe is the response made from the error itself |
| Daemon.WrappingSpeaksFor | cmd/vreflinkd/runtime.go:92-135 | text around an error changes neither its class nor, if it is coded, its response |
| Daemon.ArrivesOrNot | cmd/vreflinkd/runtime.go:109-125 | what goes through a pipe arrives unchanged or not at all |
| Daemon.CommandWorkerExecute | cmd/vreflinkd/runtime.go:84-149 | the child acts as the identity asked for; success is reported only if the service succeeded; if the child fares well and the frames fit, the response is the one the service gave; if it does not start, or does not end well, the class is that error's |
| Daemon.TokenDecidesAccount | cmd/vreflinkd/runtime.go:49-62 | with tokens, a request is handed on exactly if it is a well-formed version 2 request bearing some entry's token, and then to exactly that entry's account |
| Daemon.DaemonExecute | cmd/vreflinkd/runtime.go:37-63 | without tokens version 1 is carried out by the daemon itself and anything else is refused, well-formed requests with "token authentication is not configured"; with tokens, version 1 and unknown tokens are refused and the rest goes to a worker with the account its token stands for; refused means nothing touched, and every answer is passed on |
| Daemon.Handle | internal/server/server.go:70-89 | an unreadable request is answered EINVAL and touches nothing; any other is answered as the daemon decides, OK only if it was carried out |
| Daemon.HandleConn | internal/server/server.go:58-89 | one request is consumed, at most one response frame sent, the connection closed; the response is the one the handler gave, with everything said of it |
| Client.NoConnectionLeaks | internal/client/client.go:69-98 | under every schedule at most one connection is made, none is closed twice or while in use, and in the end every one is closed unless it came with an error to a waiting caller |
| Client.ConnectionWithErrorLeaks | internal/client/client.go:45-48 | that exception is real |
| Client.CrashesExactlyIf | internal/client/client.go:80-102 | when all is over, the process has panicked exactly if the dial handed over a nil pointer to a caller who had given up, or neither an error nor a connection to one who had not; for the default dial, exactly if the caller gave up and the dial failed |
| Client.FailedDialCrashes | internal/client/client.go:85-94 | that can happen |
| Client.RaceEnds | internal/client/client.go:80-97 | no goroutine waits for ever: some step is possible until all have ended, and each uses one up |
| Client.Do | internal/client/client.go:32-67 | an invalid request is not sent; otherwise one frame is sent, one read, and the connection closed on every path |

## Left out

- The reflink ioctl, extent sharing and copy on write: a clone copies a content value or fails.
- JSON text: a coder that reads back what it wrote stands for it; strings that are not valid UTF-8, which come back changed, are outside the transparency theorems.
- vsock addresses, deadlines and timers, logging, signals: a connection is its bytes, where it breaks, and whether it is closed; giving up waiting is a step that may come at any time.
- Server.Serve's accept loop: connections arrive as steps of `Workers`, which knows no shutdown.
- Crashes of the daemon, and guests or administrators changing the share while a request runs.
- Names that no file system takes: in the model every component can be created, where a NUL character is answered EINVAL and a component or path that is too long ENAMETOOLONG.
- Ownership, ACLs, setgid inheritance when a directory is made, and umasks that strip owner bits.
- Permission on nodes the process did not create: such a refusal is one of the unknown failures.
- Resolve.SecureJoin: the root itself is named without a symbolic link, because the kernel of the model never follows one; it may be missing or no directory. The code never resolves the root's own name, so a root reached through links stands for the place they lead to as long as nobody changes them.
- Resolve.ResolvePath: the same about the root.
- Resolve.ResolveSource: the same about the root.
- Resolve.ResolveDestination: the same about the root.
- Services.Execute: the same about the root; and the walk of a recursive request that can start comes to an end (`WalkTermination.WalkEndsIff` says when). Why a request fails is said for a process let in by the directories it made before, if any; one copied with a mode that keeps its owner out may refuse it.
- Daemon.HandleConn: the same two things about a request that is not refused outright, here and in the other members of `Daemon` that hand requests to the service.
- TreeWalks.ReflinkTree: a walk that gets started comes to an end; nothing is said of a walk for ever that only an unknown failure stops.
- StartupProbe.ValidateShareRoot: the root is named without a symbolic link, where the code's `os.Stat` would follow one; the quoted root in its messages is left out.
- Kernels.Kernel.Open: does not model an opened symbolic link, because every caller has looked at the path before and no worker makes links.
- Kernels.Kernel.Clone: handles are known by the path they were opened at, because nothing in the model renames or replaces an open file.
- Workers.NoClobber: what an open file holds after another worker removed or replaced it is for the environment to choose.
- Auth.WorkerAccount: real and effective ids of the daemon are the same, as the code takes the real ones.
- Daemon.CommandWorkerExecute: the child's whole life comes between the parent's write and its read, because neither waits for the other in between; a child that is killed halfway is one whose pipes give out or that does not run.
- Races.ExactlyOneWins: requests for one file; for trees `Workers.AtMostOneSuccess` and the theorems of `Interleavings` hold.
- WorkerTermination.EveryRequestEnds: for a recursive request the source and the directory that holds the destination were there from the start, and nobody is asked to write below its source, as its walk could otherwise go on with what others make.
- Workers.InvAlways: owner bits are not part of the machine; see `TreeProgress.OwnModesAllowNext`.
- Interleavings.SuccessfulTreeIsClone: the source and the directory that holds the destination were there from the start, so that they are nobody's work in progress; a copy from or into what another request has made, even one that has its answer, is outside the theorem.
- Interleavings.FailedTreeIsPrefix: the same.
- Interleavings.SuccessfulFileIsCopy: the source was there from the start.
- Successes.WelcomeRequestSucceeds: the same, and what could be carried out is judged by the file system at the start.
- Client.CrashesExactlyIf: the process is taken to last until its goroutines are done; a client that exits first takes them with it.
- `auth.NewTokenMap`, configuration files, flags, help texts, installation, packaging and the development tools.
