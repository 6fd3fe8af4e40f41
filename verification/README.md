# Network, mount, fence and version components: a Dafny model

The repository gathers separate pieces of network, browser and GPU code. This project models
ten of its components and proves what each is meant to keep, over all inputs and all runs.
Code that changes state in place is a class or a method over arrays here, proved equal to a
function on values; the properties are then lemmas about those functions.

| component | files here |
|---|---|
| IPv4 and IPv6 address text codec | `Text`, `Ipv4`, `Ipv6Grammar`, `Ipv6Parser`, `Ipv6Theorems`, `Ipv6Canonical`, `Ipv6Codec`, `AddressTexts` |
| external mount point registry | `FilePaths`, `PathOrder`, `MountPoints`, `MountEvents`, `DoubledSeparators` |
| Vulkan fence helper | `FenceHelper`, `FenceEvents` |
| HTTP request scheduler | `Scheduler` (the protocol), `SchedulerEvents`, `HttpThread` (the loops) |
| TLS context cache | `TlsCache` |
| Tor version ordering | `Version`, `VersionTexts` |
| proxy tunnel output buffer | `ProxyTunnel` |
| request/response dispatcher | `Dispatcher` |
| error-page auto-reloader | `AutoReloader`, `ReloaderEvents` |
| trial-division primality | `Primes` |

The files named `...Events` and `...Texts` say what single operations do to each field, and how texts
read letter by letter, with numbers and letters written out.

`dafny verify dfyconfig.toml` checks everything.

## How the parts are modelled

**Addresses.** `Ipv6Grammar` states section 2.2 of RFC 4291 by itself: an `Address6` is a text cut
into groups, a possible `::` and a possible dotted tail, with `Show` giving its text and `Denotes`
its eight words. The parser is proved to accept exactly those texts with exactly those words. The
printer is proved to choose a form of the grammar that denotes the address, and outside the dotted
forms the one that sections 4.1 to 4.3 of RFC 5952 recommend. An address is its value in host
order; the byte-order conversions around it cancel. Formatted printing and scanning, `strtol`
(which takes an `0x` prefix and saturates) and Zig's `parseInt` (which takes signs and
underscores) are given short specifications. The dotted tail of an IPv6 address may have leading
zeros (networking/add.c:134), which `tor_inet_aton` refuses; the grammar here says so.

**Mounts.** Paths are strings with POSIX rules. The path index is a sequence ordered by the
lexicographic order of its keys, as the ordered map is. Names, types and paths are arbitrary; that
two neighbours stand for all mounts is promised for paths without doubled separators only, and
`DoubledSeparators` proves that it holds for no others.

**Fences.** A driver is a value that says which fences are signalled or broken and whether the
device is lost. The header of the class is not part of this model's sources: the first generation
is taken to be 1, the current one 0, the default argument of `ProcessCleanupTasks` 0, and a task
group uses a callback when its fence is null. A signalled fence stays signalled.

**Scheduler.** Producers, aborts, callbacks and the loop's thread take atomic steps in any order.
Starting a request changes the active count by +1, or by 0 if it fails at once. A wake-up sent
before the loop has come up is dropped, as in the code. The set `told` is bookkeeping: it names the
requests that were scheduled and aborted when a shutdown message for them was pushed.

**Others.** The TLS cache gets a non-decreasing clock as input. Parsing a version string is a
function given to `Version`; of it only the bounds are assumed that parsing itself checks
(networking/lib/version.c:159-229), which leave the revision number after `(r` any `int`. The tunnel's socket takes any prefix of a write.
The dispatcher's channel delivers any message next, and may never deliver it. The reloader starts
with any visibility and connection state. `isprime` is modelled with the overflow of 32-bit
products made explicit.

Lines that would not compile as they stand are read for their evident intent:
networking/http_thread.rs:313 and 600, networking/prox_tunnel.rs:303.

## What turned out false, and when it holds

- A virtual path does not always lead back to its mount: registration does not check the name. It
  does exactly when the name is one component that is neither `.` nor a parent reference, or is `/`
  (`NameLeadsBack`, `RoundTripExact`). A mount called `a/b` can be registered and not be reached
  (`LostName`).
- Checking two neighbours is not always checking all mounts: `/a/b` is accepted beside `/a//b/c`,
  which it contains (`DoubledSeparatorsEscape`). The check is right about a normalized path exactly
  when the path has no doubled separators (`PlainIsExact`), and a lookup exactly when at most one
  component follows the first doubled separator, or the first that follows or one before it is a
  parent reference (`LateDoubleIsExact`). That the index is the inverse
  of the name map holds for all paths (`IndexIsInverse`).
- A fired external callback does not always retire its generation: behind an unready fence it is cut
  back and not remembered. `CallbackRetires` gives the exact condition, `BlockedCallbackIsForgotten`
  a run after which no poll ever retires the generation.
- The version comparator is not an order on all versions that parse: the revision number after `(r`
  is not range-checked, and three versions that differ in it alone form a circle (`RevisionsCycle`).
  A range of revisions is ordered exactly when it is narrower than 2^31 (`RevisionRangeExact`).
  `FieldSignExact` gives the exact range of differences in which one field is compared by its true
  sign, `CompareExact` the exact condition on two versions, `StringsInKeyOrder` on two strings.
- The dispatcher can settle the wrong request after its counter has restarted (`RoomRunsOut`). A post
  is harmless exactly when no request that can still be answered has the new id (`RoomIsExact`),
  which holds while such requests are fewer than MAX_SAFE_INTEGER requests old
  (`YoungRequestsLeaveRoom`, `YoungRunsAreFaithful`).
- The reloader can be left with a recorded error, online, visible, idle and without a timer: exactly
  when the last pending navigation neither committed nor was suppressed (`StrandedExactly`).
  `StrandedRun` is such a run from the start.
- `isprime` overflows 32-bit arithmetic exactly on the primes from 46337 squared on.
- The Zig address parser accepts more than the C one: signs and underscores (`CAndZigAgree`,
  `ZigTakesPlus`).
- A pooled tunnel loses bytes on adoption exactly when its buffer was not empty
  (`AdoptionDropsTheBuffer`; `ByteLostAtAdoption` is a run that loses one).

## Model

| member | source | states |
|---|---|---|
| Ipv4.ScanIsSplit | networking/add.c:28 | the `%3u.%3u.%3u.%3u%c` scan gives four conversions exactly on four dot-separated numbers of one to three digits, and reads their values |
| Ipv4.TorInetAton | networking/add.c:20-45 | accepts exactly four dot-separated decimal octets up to 255 without leading zeros, and returns the value they spell |
| Ipv4.TorInetNtoa | networking/add.c:46-51 | writes the dotted quad with its terminator and returns its length, or -1 exactly when it does not fit |
| Ipv4.ZigInetAton | pipe.zig:8-34 | accepts exactly four octets that `parseInt` takes without a leading zero, and returns their value |
| Ipv4.ZigInetNtoa | pipe.zig:36-47 | writes the dotted quad, or reports that the buffer is too small |
| Ipv4.ParseOfPrint | networking/add.c:20-51 | every 32-bit address prints as a text that parses back to it |
| Ipv4.PrintOfParse | networking/add.c:20-51 | every accepted text is what printing its value gives, so no address has two spellings |
| Ipv4.CAndZigAgree | pipe.zig:8-34 | over all strings, the C parser accepts exactly what the Zig parser accepts among digits and dots, with the same value |
| Ipv4.ZigTakesPlus | pipe.zig:21-22 | a plus sign before any accepted address is taken by the Zig parser and refused by the C parser |
| Ipv4.QuadTextJoins | networking/add.c:50 | the printed quad is its four numerals joined by dots, 7 to 15 characters, and splits back into them |
| Text.DigitsAre | networking/add.c:100 | the sixteen hex digits, letter by letter: lower case printed, both cases read |
| Text.DecimalText | networking/add.c:50 | decimal numerals of up to three digits, digit by digit |
| Text.HexText | networking/add.c:100 | hex numerals of up to four digits, digit by digit |
| Ipv4.AddressOfText | networking/add.c:28-43 | the text a.b.c.d of four numbers below 256 is accepted as 16777216a + 65536b + 256c + d, which prints as that text |
| Ipv4.OctetsOfText | networking/add.c:28-42 | every accepted text is of that form |
| Ipv4.ZigOddOctets | pipe.zig:18-22 | signs, underscores and leading zeros in one octet: which are taken, with what value, and which refused |
| Ipv6Parser.GroupFits | networking/add.c:144-152 | past the length checks the group is one to four hex digits within the words, so neither assertion on its value fires |
| Ipv6Theorems.ParseShow | networking/add.c:117-179 | every well-formed text of the grammar is accepted with the words it denotes |
| Ipv6Theorems.ParseSound | networking/add.c:117-179 | every accepted text is the text of some well-formed reading |
| Ipv6Theorems.ParserIsGrammar | networking/add.c:117-179 | a text is accepted with given words if and only if some well-formed reading of it denotes them (section 2.2 of RFC 4291) |
| Ipv6Codec.CutTailOff | networking/add.c:124-139 | finds where the words end, refuses a bad tail, and stores a good one in the last two words |
| Ipv6Codec.ReadTail | networking/add.c:134-137 | accepts exactly four numbers of one to three digits up to 255, and packs them into two words |
| Ipv6Codec.ReadWord | networking/add.c:143-155 | reads one group exactly when the checks around `strtol` pass |
| Ipv6Codec.ScanWords | networking/add.c:140-165 | the loop fills the array with the words and gap of the scan, and touches nothing past them |
| Ipv6Codec.OpenGap | networking/add.c:168-174 | the move and the clearing insert exactly the missing zeros, stay inside the array and leave the dotted tail alone |
| Ipv6Codec.Assemble | networking/add.c:167-174 | refuses a wrong count, else leaves the eight words with the gap filled |
| Ipv6Codec.FinishByLength | networking/add.c:141-167 | a tail the words overran is always refused by the count, whatever it then holds |
| Ipv6Codec.PtonV6 | networking/add.c:117-179 | succeeds exactly when the specified parser does; then all sixteen bytes are those of the denoted words, no filler left, else the target is untouched |
| Ipv6Codec.FindGap | networking/add.c:76-92 | the one-pass search finds the gap that the specification chooses |
| Ipv6Codec.PrintGroups | networking/add.c:93-105 | the print loop writes exactly the chosen text, never past the local buffer |
| Ipv6Codec.PrintDotted | networking/add.c:65-71 | the two dotted formats are exactly the chosen text |
| Ipv6Codec.FillBuffer | networking/add.c:61-105 | the local buffer ends up holding the chosen text of the address, within 64 characters |
| Ipv6Codec.NtopV6 | networking/add.c:57-108 | null, with the buffer untouched, exactly when text and terminator do not fit; else the chosen text with its terminator |
| Ipv6Canonical.GapIsRecommended | networking/add.c:76-92 | the compressed run is longest, then leftmost, and never a single word (section 4.2 of RFC 5952) |
| Ipv6Canonical.RecommendedGapUnique | networking/add.c:76-92 | there is only one such run, so the recommendation determines the choice |
| Ipv6Canonical.FormDenotes | networking/add.c:57-108 | the printed form is well formed and denotes the address, in every dotted, gap and plain case |
| Ipv6Canonical.ParseOfPrint | networking/add.c:57-179 | for every eight words, parsing the printed text gives them back |
| Ipv6Canonical.PrintLength | networking/add.c:59-108 | no output is longer than 39 characters, no dotted one than 22 |
| Ipv6Canonical.PrintIsRecommended | networking/add.c:76-105 | outside the dotted forms: lower case, no leading zeros, and `::` exactly for the recommended gap (sections 4.1 to 4.3 of RFC 5952) |
| Ipv6Canonical.Canonicalise | networking/add.c:57-179 | printing what was read from any accepted text and reading it again gives the same address |
| Ipv6Codec.AddressRoundTrip | networking/add.c:57-183 | for every sixteen bytes, parsing the printed text and storing the words gives the bytes back |
| AddressTexts.MappedText | networking/add.c:65-71 | an address of five zero words and ffff prints as `::ffff:` and its last four bytes in decimal |
| AddressTexts.CompatibleText | networking/add.c:65-68 | one of six zero words and two non-zero ones prints as `::` and its last four bytes in decimal |
| AddressTexts.NoDotsElsewhere | networking/add.c:65-105 | no other address prints with a dot |
| AddressTexts.EightGroups | networking/add.c:93-105 | without adjacent zero words and dotted tail, the text is eight hex groups joined by colons |
| AddressTexts.GapInText | networking/add.c:76-105 | otherwise `::` stands exactly for the longest run of zero words, the first of its length |
| AddressTexts.NetworkOrder | networking/add.c:62-64 | word i is 256 times byte 2i plus byte 2i+1 |
| AddressTexts.EightGroupsRead | networking/add.c:140-165 | eight groups of one to four hex digits joined by colons read as their values |
| AddressTexts.GapRead | networking/add.c:140-174 | with `::` between up to seven groups the missing words are zero and the groups keep their order |
| AddressTexts.MappedRead | networking/add.c:129-139 | after `::ffff:` every dotted quad of one to three digits each, at most 255, leading zeros or not, fills the last two words |
| AddressTexts.CaseDoesNotMatter | networking/add.c:143-145 | upper and lower case hex digits read the same |
| AddressTexts.AcceptedLetters | networking/add.c:140-165 | an accepted text holds hex digits, colons and dots only |
| AddressTexts.AcceptedPieces | networking/add.c:140-167 | between the colons of an accepted text stand at most seven words with `::` and eight without, each of at most four hex digits |
| AddressTexts.AcceptedTail | networking/add.c:129-135 | a dotted tail comes last: four numbers of one to three digits, at most 255 |
| PathOrder.PrefixInterval | z-box/handler-store/external_m.cpp:278-297 | every string between a string and an extension of it extends it too |
| FilePaths.NormalizeStrip | z-box/handler-store/external_m.cpp:17-24 | normalizing undoes the stripping that a stored mount path has undergone |
| FilePaths.ParentIsPrefix | z-box/handler-store/external_m.cpp:283-295 | between normalized paths, containing component-wise is being a proper string prefix, thanks to the trailing separator |
| FilePaths.AppendDirs | z-box/handler-store/external_m.cpp:167-169 | appending components one by one gives the path that closes each of them, stripped |
| MountPoints.PrefixMountIsNearest | z-box/handler-store/external_m.cpp:202-208 | of pairwise non-nested mounts, one whose path is a prefix of a string can only be the nearest at or below it |
| MountPoints.OnlyPredecessorCovers | z-box/handler-store/external_m.cpp:202-208 | so can a mount that equals or contains a path without doubled separators |
| MountPoints.NeighboursDecide | z-box/handler-store/external_m.cpp:278-297 | checking two neighbours gives the verdict of checking every mount, for every index of pairwise non-nested mounts |
| MountPoints.AllowedIsAcceptable | z-box/handler-store/external_m.cpp:267-300 | in a consistent registry and without doubled separators the checks with two neighbours allow exactly what the checks with all mounts allow; PlainIsExact states the other direction |
| MountPoints.RegisterKeeps | z-box/handler-store/external_m.cpp:94-108 | an accepted registration keeps index and name map consistent |
| MountPoints.RevokedKey | z-box/handler-store/external_m.cpp:120 | the index key that a revocation erases is the mount's own and no other mount's |
| MountPoints.RevokeKeeps | z-box/handler-store/external_m.cpp:115-123 | a revocation keeps index and name map consistent |
| MountPoints.StepConsistent | z-box/handler-store/external_m.cpp:94-123 | every operation on a path without doubled separators keeps index and name map consistent |
| MountPoints.RunConsistent | z-box/handler-store/external_m.cpp:94-123 | so does every run of registrations and revocations |
| MountPoints.StepKeepsInverse | z-box/handler-store/external_m.cpp:94-123 | every operation, on any path, keeps the index the inverse of the eligible entries of the name map |
| MountPoints.IndexIsInverse | z-box/handler-store/external_m.cpp:94-123 | over every run from empty, on any paths, the index lists exactly the eligible mounts under their normalized paths |
| MountPoints.IndexedPathsAreApart | z-box/handler-store/external_m.cpp:94-123 | over every run from empty without doubled separators, indexed paths are pairwise non-nested |
| MountPoints.CoverUnique | z-box/handler-store/external_m.cpp:197-209 | at most one mount equals or contains a path |
| MountPoints.NearestIsTheOne | z-box/handler-store/external_m.cpp:197-209 | asking the nearest mount at or below a path succeeds exactly when some mount covers the path, and answers with that one |
| MountPoints.VirtualRoundTrip | z-box/handler-store/external_m.cpp:134-209 | cracking the virtual path of a covered path gives the mount, its type and option and the stripped original path, or nothing exactly when it has parent references |
| MountPoints.RoundTripExact | z-box/handler-store/external_m.cpp:134-209 | every covered path without parent references reads back from its virtual path if and only if the mount's name is one ordinary component or `/` |
| MountPoints.NameLeadsBack | z-box/handler-store/external_m.cpp:144-159 | a registered mount's virtual root cracks back to that mount if and only if its name is one ordinary component or `/` |
| MountPoints.LostName | z-box/handler-store/external_m.cpp:94-108 | a mount called `a/b` is registered, and its virtual root cracks to nothing |
| MountPoints.ExternalMountPoints.ValidateNewMountPoint | z-box/handler-store/external_m.cpp:267-300 | decides the checks with two neighbours for any path; in a consistent registry and without doubled separators this accepts exactly an unused non-empty name with an empty path, or an absolute one without parent references that overlaps no indexed mount unless overlap is allowed |
| MountPoints.ExternalMountPoints.RegisterFileSystem | z-box/handler-store/external_m.cpp:94-108 | for any path, registers exactly what the checks allow and leaves all else alone; without doubled separators it accepts exactly what overlaps no mount and keeps the registry consistent |
| MountPoints.ExternalMountPoints.RevokeFileSystem | z-box/handler-store/external_m.cpp:115-123 | succeeds exactly on registered names, removes both entries and keeps a consistent registry consistent |
| MountPoints.ExternalMountPoints.RevokeAllFileSystems | z-box/handler-store/external_m.cpp:224-231 | both maps are emptied |
| MountPoints.RegisteredPathStays | z-box/handler-store/external_m.cpp:94-132 | once registered, a mount gives back the path of its registration without trailing separators, with its type and option, through any other operations until it is revoked |
| MountPoints.ExternalMountPoints.GetVirtualPath | z-box/handler-store/external_m.cpp:197-209 | for any path, the answer of the nearest mount; in a consistent registry and without doubled separators it succeeds exactly when some indexed mount equals or contains the path, and answers with that mount |
| MountPoints.ExternalMountPoints.CrackVirtualPath | z-box/handler-store/external_m.cpp:134-171 | the loop appends the components to the mount's path as specified, and fails on parent references, no components or an unknown name |
| MountEvents.RegisterAdds | z-box/handler-store/external_m.cpp:94-108 | an accepted registration adds its mount and no other, a refused one changes nothing |
| MountEvents.MediaMayOverlap | z-box/handler-store/external_m.cpp:26-28 | local and device media are never listed in the index, and are accepted at any absolute path without parent references |
| MountEvents.OthersMayNot | z-box/handler-store/external_m.cpp:26-28 | a mount of any other type is refused if a listed mount is at, above or below its path, and else listed |
| MountEvents.RevokeTakes | z-box/handler-store/external_m.cpp:115-123 | a revocation takes away the mount and its entry and nothing else; revoking all leaves nothing |
| MountEvents.RevokeUndoes | z-box/handler-store/external_m.cpp:94-123 | revoking what was just registered restores the registry |
| MountEvents.OnlyProperMounts | z-box/handler-store/external_m.cpp:267-276 | over every run each mount of any type has a name, and an empty path or an absolute one without a component `..` |
| MountEvents.VirtualPathText | z-box/handler-store/external_m.cpp:197-214 | a virtual path is the mount's name and what follows the mount in the path |
| DoubledSeparators.DoubledSeparatorsEscape | z-box/handler-store/external_m.cpp:278-297 | a run that registers `/a/b` beside `/a//b/c`, which it contains |
| DoubledSeparators.DoubleIsAccepted | z-box/handler-store/external_m.cpp:278-297 | for every normalized absolute path with a doubled separator there is a run on plain paths after which it is accepted although it contains a mount |
| DoubledSeparators.PlainIsExact | z-box/handler-store/external_m.cpp:267-300 | the check of the neighbours gives the verdict of the check of all mounts, in every consistent registry or in every one a run on plain paths builds, if and only if the path has no doubled separator |
| DoubledSeparators.CoverIsPrefix | z-box/handler-store/external_m.cpp:197-209 | if at most one component follows the first doubled separator, or a parent reference comes no later than the first that follows, whatever mount covers the path is a prefix of it |
| DoubledSeparators.DoubleIsNotFound | z-box/handler-store/external_m.cpp:197-209 | for every other path there is a run after which the lookup fails although a mount covers the path |
| DoubledSeparators.LateDoubleIsExact | z-box/handler-store/external_m.cpp:197-209 | the nearest mount decides whether a path is covered, in every such registry, if and only if that condition holds |
| FenceHelper.ScanSound | app/graphics/vv_helper.cpp:57-77 | the scan retires a fence only if it saw it signalled, and never retires past the evidence |
| FenceHelper.ScanExact | app/graphics/vv_helper.cpp:57-77 | the scan fails exactly when a broken fence precedes every unready one, and reaches a retired generation exactly when every fence up to it is signalled |
| FenceHelper.ProcessKeepsHistory | app/graphics/vv_helper.cpp:57-94 | processing neither loses, repeats nor reorders a cleanup task |
| FenceHelper.ProcessValid | app/graphics/vv_helper.cpp:57-94 | processing keeps the queue at generations current+1 to next-1, and the current generation never decreases |
| FenceHelper.PoppedWereSignalled | app/graphics/vv_helper.cpp:79-91 | every popped fence was seen signalled, so the check before destroying it cannot fire, and each popped generation is backed by a signalled fence or the fired callback |
| FenceHelper.CallbackRetires | app/graphics/vv_helper.cpp:57-77 | a fired callback retires its generation if and only if every fence up to it is signalled or a broken fence comes first |
| FenceEvents.FiringRetires | app/graphics/vv_helper.cpp:121-127 | firing a callback retires its generation if and only if every fence up to it is signalled, or a broken fence comes before any unready one |
| FenceEvents.LateFiring | app/graphics/vv_helper.cpp:124-126 | firing one whose generation has passed does nothing |
| FenceEvents.FiredCallbackRuns | app/graphics/vv_helper.cpp:114-128 | over every run: once the fences up to it are signalled, firing a callback runs every task enqueued before it was made |
| FenceEvents.PassedMeansRun | app/graphics/vv_helper.cpp:30-128 | over every run: once a generation has passed, by fences, callbacks or failure, every task enqueued before it was given out has run |
| FenceEvents.PollRetires | app/graphics/vv_helper.cpp:57-77 | a poll retires a generation if and only if a signalled fence of it or a later one has nothing unready before it, or a broken fence comes first |
| FenceEvents.WaitAchieves | app/graphics/vv_helper.cpp:37-44 | after a wait whose driver has signalled every fence up to the handle, the generation has passed |
| FenceEvents.PendingMoves | app/graphics/vv_helper.cpp:30-35 | a fence or callback puts all pending tasks under the next generation; with nothing pending no callback or fence is made |
| FenceEvents.EverythingRuns | app/graphics/vv_helper.cpp:96-112 | a fence that cannot be made or submitted, and destruction, run everything at once, with the flag for the lost device, and destroy every fence |
| FenceEvents.FailureRunsAll | app/graphics/vv_helper.cpp:74-76 | so does a broken fence that a poll meets |
| FenceEvents.RetiredHearNoLoss | app/graphics/vv_helper.cpp:93 | tasks retired otherwise hear that the device is not lost |
| FenceEvents.FencesAreAccounted | app/graphics/vv_helper.cpp:30-196 | over every run each fence made is queued or destroyed, never both, and no other is destroyed |
| FenceHelper.BlockedCallbackIsForgotten | app/graphics/vv_helper.cpp:57-128 | a run in which a callback fires behind an unready fence that then signals; no poll afterwards retires the callback's generation |
| FenceHelper.HandleStaysValid | app/graphics/vv_helper.cpp:57-94 | processing pops a handle's fence only when it lets the handle's generation pass |
| FenceHelper.StepKeepsHandle | app/graphics/vv_helper.cpp:21-128 | every operation, also a failed submission or an immediate cleanup, keeps every handle given out: its fence is queued until its generation has passed |
| FenceHelper.RunKeepsHandle | app/graphics/vv_helper.cpp:21-128 | so does every run |
| FenceHelper.WaitedFenceIsAlive | app/graphics/vv_helper.cpp:37-44 | the fence of such a handle has not been destroyed while its generation has not passed |
| FenceHelper.WaitsAreSafe | app/graphics/vv_helper.cpp:30-51 | for every run that gives out a handle and every continuation: its fence stays queued and undestroyed until its generation has passed, and a `Wait` hands over a fence not destroyed |
| FenceHelper.StepKeeps | app/graphics/vv_helper.cpp:21-128 | every operation keeps the numbering and adds to the history exactly the task enqueued |
| FenceHelper.RunKeeps | app/graphics/vv_helper.cpp:21-128 | over every run: tasks run, then queued, then pending, are all tasks ever enqueued in order |
| FenceHelper.TasksRunInOrder | app/graphics/vv_helper.cpp:30-196 | tasks run in the order they were enqueued, each at most once, and all of them have run when nothing waits |
| FenceHelper.VulkanFenceHelper.EnqueueFenceHandle | app/graphics/vv_helper.cpp:30-35 | pending tasks move under a new generation, and the handle for it is valid |
| FenceHelper.VulkanFenceHelper.EnqueueCleanupTaskForSubmittedWork | app/graphics/vv_helper.cpp:53-55 | the task joins the end of the pending ones |
| FenceHelper.VulkanFenceHelper.ScanQueue | app/graphics/vv_helper.cpp:62-77 | the loop computes the specified scan |
| FenceHelper.VulkanFenceHelper.PopRetired | app/graphics/vv_helper.cpp:79-91 | the retired entries leave the front of the queue, their fences are destroyed, their tasks collected in order, and the check on each fence holds |
| FenceHelper.VulkanFenceHelper.ProcessCleanupTasks | app/graphics/vv_helper.cpp:57-94 | scan, pop and run together are the specified step, also on device failure |
| FenceHelper.VulkanFenceHelper.PerformImmediateCleanup | app/graphics/vv_helper.cpp:174-196 | every queued and then every pending task runs in order, with the device-lost flag, and every generation has passed |
| FenceHelper.VulkanFenceHelper.HasPassed | app/graphics/vv_helper.cpp:46-51 | processes, then tells whether the handle's generation has passed |
| FenceHelper.VulkanFenceHelper.WaitFor | app/graphics/vv_helper.cpp:37-44 | true exactly when the wait succeeded or the generation had passed already; the handle stays valid |
| FenceHelper.VulkanFenceHelper.GenerateFence | app/graphics/vv_helper.cpp:96-112 | an empty handle, an immediate cleanup or a fresh generation, as the driver answers |
| FenceHelper.VulkanFenceHelper.CreateCallback | app/graphics/vv_helper.cpp:114-121 | pending tasks move under a generation that only a callback retires by itself |
| FenceHelper.VulkanFenceHelper.RunCallback | app/graphics/vv_helper.cpp:121-127 | a callback of a generation that has passed does nothing, another processes with that generation |
| Scheduler.StepKeeps | networking/http_thread.rs:581-694 | every step of producers, callbacks and loop keeps the partition, pass and wake-up invariants, and the counter is positive when a request ends |
| Scheduler.AdmitKeeps | networking/http_thread.rs:597-627 | each turn of the two admission loops keeps the invariants |
| Scheduler.ReachableInv | networking/http_thread.rs:581-812 | every interleaving from start-up satisfies the invariants |
| Scheduler.NoLostWakeup | networking/http_thread.rs:634-694 | whenever the loop is about to block, a wake-up is pending or about to be sent, or the message lists are empty and no request waits while there is room; includes the start-up race |
| Scheduler.NoLostAbort | networking/http_thread.rs:426-481 | whenever the loop is about to block and nobody is about to wake it, every request whose abort it was told of has been let through, however full the house |
| Scheduler.ToldByShutdown | networking/http_thread.rs:642-651 | the loop is told of a request exactly by a shutdown message pushed while the request is scheduled and aborted, and never forgets it |
| Scheduler.EachRequestOnce | networking/http_thread.rs:590-627 | each scheduled request is in exactly one of waiting, active and finished, the counter is the number active, a blocked loop with deferred requests has a full house, and a full pass lets through whatever was aborted when it began |
| Scheduler.StartsInOrder | networking/http_thread.rs:600-622 | a request that is not aborted starts only below the limit and only after every earlier request has started |
| SchedulerEvents.MoreToComeEndsNothing | networking/common/https.zig:323-325 | a callback with more to come leaves active and finished requests and the counter alone |
| SchedulerEvents.LastCallbackEndsOne | networking/common/https.zig:325-335 | the last callback moves its request from active to finished and lowers the counter by one |
| SchedulerEvents.CallbackWakes | networking/common/https.zig:337-339 | a callback wakes the loop exactly when a request waits and there is room after it |
| SchedulerEvents.AdmissionDecides | networking/http_thread.rs:597-627 | the next request is started exactly if it was aborted or there is room, and deferred otherwise; if it fails at once it is finished |
| SchedulerEvents.LoadDecides | networking/http_thread.rs:591-598 | a full house without a queued abort is left alone, otherwise a pass over all that was deferred begins and the abort flag is cleared |
| SchedulerEvents.EndsOnlySo | networking/common/https.zig:323-335 | a request ends only by its last callback, or by failing at once when started |
| SchedulerEvents.FinishedByAnEnd | networking/common/https.zig:323-354 | over every run a request has finished only if such an event happened |
| SchedulerEvents.PushesJoin | networking/http_thread.rs:634-694 | each push lengthens its list and owes a wake-up call |
| SchedulerEvents.WakeUps | networking/http_thread.rs:669-673 | a wake-up call counts only once the loop has come up, and a turn of the loop uses it up |
| SchedulerEvents.AsleepAtFirst | networking/http_thread.rs:786-787 | over every run nothing wakes the loop, and nothing is active, before it has come up |
| SchedulerEvents.DrainsEmpty | networking/http_thread.rs:426-578 | each list is emptied before the loop moves on, and the abort flag is set exactly by an unmatched shutdown |
| HttpThread.RunPassKeeps | networking/http_thread.rs:597-627 | a whole pass ends, and keeps the invariants |
| HttpThread.Thread.Wakeup | networking/http_thread.rs:669-673 | a wake-up before the loop has come up is dropped |
| HttpThread.Thread.Schedule | networking/http_thread.rs:674-694 | a batch is queued in order behind the rest, then the loop is woken once; an empty batch does nothing |
| HttpThread.Thread.ScheduleShutdown | networking/http_thread.rs:642-651 | the message joins the list, then the loop is woken |
| HttpThread.Thread.DrainQueuedShutdowns | networking/http_thread.rs:426-481 | the nested loops empty the list, and set the flag exactly when some message found no request |
| HttpThread.Thread.WakeForRoom | networking/common/https.zig:337-339 | wakes the loop exactly when a request waits and there is room |
| HttpThread.Thread.OnCallback | networking/common/https.zig:323-340 | a final callback ends one active request and lowers the counter; each callback may wake the loop |
| HttpThread.Thread.StartQueuedTask | networking/common/https.zig:345-354 | the counter goes up by one, and down again if the request fails at once |
| HttpThread.Thread.PassOverDeferred | networking/http_thread.rs:597-611 | the loop over the deferred list does the protocol's steps, in order |
| HttpThread.Thread.PassOverQueue | networking/http_thread.rs:613-627 | the loop over the queue does the protocol's steps until it is empty |
| HttpThread.Thread.AdmitRequests | networking/http_thread.rs:591-632 | nothing happens with a full house and no queued abort, else one whole pass; afterwards deferred requests mean a full house |
| TlsCache.SwapRemoveIs | networking/http_thread.rs:406 | swap-removal removes exactly the entry named, and keeps keys and contexts distinct |
| TlsCache.ServedMeans | networking/http_thread.rs:329-372 | what a connection finds and leaves, in numbers |
| TlsCache.Cache.EvictStale | networking/http_thread.rs:399-412 | exactly the entries last used more than 30 * 60 * 1000000000 ns ago go, each released, although the last entry moves into every freed place; the loop ends |
| TlsCache.Cache.EvictOldest | networking/http_thread.rs:696-711 | exactly the first of the least recently used entries goes, nothing from an empty cache |
| TlsCache.Cache.Connect | networking/http_thread.rs:329-372 | a hit exactly when an entry with the key was used within 30 * 60 * 1000000000 ns, which is then refreshed; otherwise a new context is stored unless it cannot be set up; an entry is evicted exactly when the cache was full, is one of the least recently used and never the new one; at most 60 entries remain; each context is live or released, once |
| TlsCache.Cache.DropAt | networking/http_thread.rs:406-407 | one entry leaves and its context is released once |
| TlsCache.Cache.Find | networking/http_thread.rs:331 | the entry with the key, if there is one |
| TlsCache.Cache.Put | networking/http_thread.rs:367-368 | a new key is appended |
| TlsCache.Cache.Touch | networking/http_thread.rs:332 | only that entry's time changes |
| Version.FieldSignExact | networking/lib/version.c:241-249 | a field comparison has the true sign if and only if the difference is at least -2^31 and below 2^31; equal fields are always told |
| Version.WrappedFieldsCycle | networking/lib/version.c:241-249 | outside that range three values are each less than the next in a circle |
| Version.RevisionsCycle | networking/lib/version.c:210-213 | so are three versions within the bounds of the parser that differ in their revision only |
| Version.RevisionRangeExact | networking/lib/version.c:210-213 | on versions that differ in the revision only, the comparator is antisymmetric over a range of revisions if and only if the range is narrower than 2^31, and then it is the order of the numbers |
| Version.CompareExact | networking/lib/version.c:236-265 | on any 32-bit fields, the comparator is the lexicographic order of one key sequence if and only if the first field that differs has a 32-bit difference, or is the status tag or git tag |
| Version.CompareIsKeyOrder | networking/lib/version.c:236-265 | on all fields from 0 to 2^31-1 the comparator is that order |
| VersionTexts.FieldsInOrder | networking/lib/version.c:251-255 | major, minor, micro, status, patch level: the first that differs decides |
| VersionTexts.RestInOrder | networking/lib/version.c:256-263 | then status tag, revision, length of the git tag and git tag |
| VersionTexts.FirstLetterDecides | networking/lib/version.c:256-257 | of two tags the first differing letter decides, and a proper prefix comes first |
| VersionTexts.ParseableFirst | networking/lib/version.c:285-288 | strings that parse come before all that do not, which go by their letters |
| Version.StringsInKeyOrder | networking/lib/version.c:276-289 | on any two strings the comparator is the order of such keys, parseable strings before all others, if and only if they are not versions that differ first in revisions 2^31 or more apart |
| Version.NonNegativeRevisionsCohere | networking/lib/version.c:210-213 | without negative revisions the comparator is that order on all strings |
| Version.TotalPreorder | networking/lib/version.c:276-289 | on every set of strings on which it is that order: reflexive, antisymmetric in sign, total and transitive with strictness carried along |
| Version.Sort | networking/lib/version.c:294 | a rearrangement, ordered whenever the comparator is an order on the list |
| Version.Uniq | networking/lib/version.c:296 | part of the list without equal neighbours; of a list the comparator orders, strictly increasing with one for every class of equal versions |
| Version.SortVersionList | networking/lib/version.c:291-297 | a rearrangement, or part of one without equal neighbours; when the comparator is an order on the list, ordered, or strictly increasing with one member for each class |
| Version.StrictListsAgree | networking/lib/version.c:291-297 | any two such deduplicated lists have the same classes in the same order |
| Version.IsObsolete | networking/lib/version.c:22-83 | the loop with its early exit gives the verdict that depends on the set of listed versions |
| Version.VerdictBySet | networking/lib/version.c:22-83 | two non-empty lists with the same set of parsed versions get the same verdict, whatever their order, repetition or unparseable entries |
| Version.VerdictMeaning | networking/lib/version.c:75-78 | what each verdict but the catch-all means, in both directions |
| VersionTexts.ListedBetweenCommas | networking/lib/version.c:38-50 | a version is listed exactly when it is the parse of an entry between commas |
| VersionTexts.BlanksAround | networking/lib/version.c:38 | blanks around an entry do not count |
| VersionTexts.WordInFront | networking/lib/version.c:48 | nor does `Tor ` in front of it |
| ProxyTunnel.StepKeeps | networking/prox_tunnel.rs:299-471 | each write or flush adds exactly its bytes to sent followed by pending, and never takes back a byte sent |
| ProxyTunnel.RunKeeps | networking/prox_tunnel.rs:299-471 | over any run, sent followed by pending grows by exactly the encrypted bytes in order |
| ProxyTunnel.NothingLostOrReordered | networking/prox_tunnel.rs:299-471 | since a start or adoption, bytes sent followed by bytes buffered are all encrypted bytes in order |
| ProxyTunnel.WriteSends | networking/prox_tunnel.rs:304-319 | a write sends what the socket takes of it, and nothing while bytes wait or there is no socket |
| ProxyTunnel.WritableSends | networking/prox_tunnel.rs:454-465 | a writable socket is given all that waits and sends what it takes |
| ProxyTunnel.FlushedAreWrites | networking/prox_tunnel.rs:468-470 | what the wrapper writes while flushed follows write by write |
| ProxyTunnel.WritableDrains | networking/prox_tunnel.rs:449-471 | over every run, once a writable socket takes all that waits, everything encrypted has been sent |
| ProxyTunnel.AdoptionDropsTheBuffer | networking/prox_tunnel.rs:507-511 | over a pooled tunnel's two lives nothing is lost if and only if the buffer was empty at adoption |
| ProxyTunnel.ByteLostAtAdoption | networking/prox_tunnel.rs:507-511 | a run that loses a byte: the socket takes none of a write, then the tunnel is adopted |
| ProxyTunnel.Connection.Adopt | networking/prox_tunnel.rs:507-516 | the buffer is emptied and a socket attached |
| ProxyTunnel.Connection.DetachSocket | networking/prox_tunnel.rs:492-494 | the socket is gone, the buffer kept |
| ProxyTunnel.Connection.WriteEncryptedData | networking/prox_tunnel.rs:299-321 | buffered behind waiting bytes, else sent as far as the socket takes it and the rest buffered |
| ProxyTunnel.Connection.Writable | networking/prox_tunnel.rs:449-471 | the cursor moves past what the socket took, then the wrapper's re-entrant writes follow in order |
| Dispatcher.SameId | app/TUTA/mail/message_dispatched.ts:106-115 | two requests have the same id if and only if their numbers agree modulo MAX_SAFE_INTEGER |
| Dispatcher.ConsecutiveIdsDistinct | app/TUTA/mail/message_dispatched.ts:106-115 | any MAX_SAFE_INTEGER consecutive ids are distinct, and the next one repeats |
| Dispatcher.IdsAre | app/TUTA/mail/message_dispatched.ts:106-115 | the ids written out, from zero, and again after 9007199254740991 of them |
| Dispatcher.IdGenerator.NextId | app/TUTA/mail/message_dispatched.ts:107-114 | the counter with its restart gives the id of the number of calls so far |
| Dispatcher.PostKeeps | app/TUTA/mail/message_dispatched.ts:23-41 | posting with room keeps the correspondence of messages, callbacks and requests |
| Dispatcher.ReplyKeeps | app/TUTA/mail/message_dispatched.ts:43-67 | an answer settles the request it belongs to, which was unsettled |
| Dispatcher.AnswerKeeps | app/TUTA/mail/message_dispatched.ts:82-96 | an answer carries what the handler run of its own request produced |
| Dispatcher.StepKeeps | app/TUTA/mail/message_dispatched.ts:23-103 | each step of either side or the channel keeps the correspondence |
| Dispatcher.RunKeeps | app/TUTA/mail/message_dispatched.ts:23-103 | so does every run in which requests are posted with room |
| Dispatcher.RequestIsServed | app/TUTA/mail/message_dispatched.ts:23-97 | a request posted with room, run and answered is settled with the handler's result |
| Dispatcher.UnknownCommandIsRejected | app/TUTA/mail/message_dispatched.ts:91-96 | one for a missing command is rejected with the error answered |
| Dispatcher.ThrowsEndIt | app/TUTA/mail/message_dispatched.ts:32-39 | one whose posting throws is rejected at once and never travels; one whose handling throws is gone unsettled |
| Dispatcher.PostFiles | app/TUTA/mail/message_dispatched.ts:24-30 | a post files callbacks under the new id and touches no others |
| Dispatcher.AnswerUnfiles | app/TUTA/mail/message_dispatched.ts:44-67 | an answer takes the callbacks filed under its id away and touches no others |
| Dispatcher.SettledOnceWithOwnResult | app/TUTA/mail/message_dispatched.ts:23-103 | over every such run, reordered in any way, each request is settled at most once and only with what its own handler run produced, or because posting it threw |
| Dispatcher.YoungRequestsLeaveRoom | app/TUTA/mail/message_dispatched.ts:106-115 | there is room while every request that can still be answered is fewer than MAX_SAFE_INTEGER requests old |
| Dispatcher.AllYoungIsRoomy | app/TUTA/mail/message_dispatched.ts:23-115 | a run that posts only while such requests are young posts only with room |
| Dispatcher.YoungRunsAreFaithful | app/TUTA/mail/message_dispatched.ts:23-115 | over every such run each request is settled at most once and only with its own result |
| Dispatcher.CrossedGoesWrong | app/TUTA/mail/message_dispatched.ts:45-66 | once a newer request has taken over the id of one in flight, answering that one settles the wrong request |
| Dispatcher.RoomIsExact | app/TUTA/mail/message_dispatched.ts:23-67 | a post is harmless, whatever is delivered and answered afterwards, if and only if no request that can still be answered has the id it gets |
| Dispatcher.RoomRunsOut | app/TUTA/mail/message_dispatched.ts:106-115 | a run leads to a post without room: the first request still unanswered when the counter restarts |
| Dispatcher.MessageDispatcher.PostRequest | app/TUTA/mail/message_dispatched.ts:23-41 | callbacks are filed under a fresh id, also when the transport throws and the promise is rejected |
| Dispatcher.MessageDispatcher.Settle | app/TUTA/mail/message_dispatched.ts:45-54 | the filed promise is settled and unfiled, an unexpected answer changes nothing |
| Dispatcher.MessageDispatcher.HandleMessage | app/TUTA/mail/message_dispatched.ts:43-103 | answers settle, requests start their command, answer an error at once, or throw; requests leave the callbacks alone |
| AutoReloader.DelaysGrow | muim/error_loader.cpp:42-53 | later delays are never shorter |
| ReloaderEvents.DelayTable | muim/error_loader.cpp:42-53 | 1, 5, 30, 60, 300 and 600 seconds, then always 1800 |
| AutoReloader.StepKeeps | muim/error_loader.cpp:122-258 | every handler keeps the invariant |
| AutoReloader.RunKeeps | muim/error_loader.cpp:122-258 | so does every sequence of events |
| AutoReloader.ReachableStates | muim/error_loader.cpp:122-258 | in every reachable state a set timer means online, visible, nothing pending and an error recorded; a reload in progress means an error recorded; delays for one error never decrease and stay within 30 minutes |
| AutoReloader.FiringReloads | muim/error_loader.cpp:249-258 | when the timer fires the check holds, the guard does not skip the reload, and the next delay does not shrink |
| AutoReloader.FailedReloads | muim/error_loader.cpp:130-172 | each failed reload of an error, suppressed or committed again, leads from one running timer to the next |
| AutoReloader.ReloadsGoOn | muim/error_loader.cpp:122-258 | an error page that commits while online and visible, followed by any number of failed reloads, leaves a running timer with the delay for that number |
| AutoReloader.StrandedExactly | muim/error_loader.cpp:145-154 | a recorded error is left online, visible, idle and without a timer if and only if the last pending navigation ended neither committed nor suppressed; a visibility or connection event sets the timer again |
| AutoReloader.StrandedRun | muim/error_loader.cpp:130-172 | a run from the start that ends so: an error page commits, then another navigation ends without committing |
| ReloaderEvents.ErrorAfter | muim/error_loader.cpp:157-169 | a good page or a stop forgets the recorded error, an error page replaces it unless it is a reload with the same error, nothing else changes it |
| ReloaderEvents.ReloadsAfter | muim/error_loader.cpp:221-256 | the count goes up when the timer fires and to zero with each forgotten or new error |
| ReloaderEvents.ProgressAfter | muim/error_loader.cpp:145-256 | a reload is in progress from the firing until its navigation ends or the error is replaced or forgotten |
| ReloaderEvents.PendingAfter | muim/error_loader.cpp:122-143 | which navigations are pending and marked, and that only their own events change connection and visibility |
| ReloaderEvents.TimerCleared | muim/error_loader.cpp:122-230 | a good page, a stop, a start, and going offline or out of sight leave no timer |
| ReloaderEvents.TimerStarted | muim/error_loader.cpp:145-247 | exactly when a timer is started, and with which delay |
| ReloaderEvents.TimerStays | muim/error_loader.cpp:145-236 | when it is left alone |
| ReloaderEvents.GuardedReload | muim/error_loader.cpp:251-253 | a timer that fires offline or out of sight starts no reload |
| ReloaderEvents.RecordedIsLast | muim/error_loader.cpp:157-176 | over every run an error is recorded if and only if the last page to commit was to be reloaded and nothing was stopped since, and it is that page's error |
| ReloaderEvents.GoodPageEndsIt | muim/error_loader.cpp:157-160 | after every run a page not to be reloaded leaves no timer, error, count or reload in progress |
| AutoReloader.NetErrorAutoReloader.DidStartNavigation | muim/error_loader.cpp:122-128 | the timer is cleared and the navigation filed as not suppressed, unless already filed |
| AutoReloader.NetErrorAutoReloader.DidFinishNavigation | muim/error_loader.cpp:130-172 | the specified step in each case, keeping the invariant |
| AutoReloader.NetErrorAutoReloader.NavigationStopped | muim/error_loader.cpp:174-176 | everything about the current error is forgotten |
| AutoReloader.NetErrorAutoReloader.OnVisibilityChanged | muim/error_loader.cpp:178-184 | hidden clears the timer, visible sets it again only with nothing pending and an error recorded |
| AutoReloader.NetErrorAutoReloader.OnConnectionChanged | muim/error_loader.cpp:186-194 | the same for the connection |
| AutoReloader.NetErrorAutoReloader.ShouldSuppressErrorPage | muim/error_loader.cpp:274-286 | suppresses exactly the error page already recorded |
| AutoReloader.NetErrorAutoReloader.ScheduleNextAutoReload | muim/error_loader.cpp:238-247 | a timer with the next delay, only online and visible |
| AutoReloader.NetErrorAutoReloader.OnTimer | muim/error_loader.cpp:249-258 | the specified reload step |
| Primes.NoSmallDivisorMeansPrime | simple_prime.cpp:11-16 | a number without a divisor below some number whose square exceeds it is prime |
| Primes.SteppedOver | simple_prime.cpp:11-14 | testing 6k-1 and 6k+1 rules out all six numbers of the step |
| Primes.CheckPrime | simple_prime.cpp:3-17 | true exactly for primes whenever it answers; a 32-bit product overflows exactly on primes from 46337 squared on |
| Primes.PrimesUpToIsCardinality | simple_prime.cpp:30-35 | the recursive count is the size of the set of primes up to the input |
| Primes.CountPrimes | simple_prime.cpp:30-35 | the loop counts the primes up to the input; it overflows exactly when such a prime is among them or the input is the largest 32-bit number |

## Left out

- Sockets, TLS, Vulkan and browser calls: each is an arbitrary answer of the right shape.
- `tor_sscanf`, `strtol`, `parseInt`, `tor_snprintf`, `smartlist_*`, `base::FilePath`, `std::map` and `StreamBuffer` internals: library code, specified in short.
- IPv4 through `tor_inet_ntop` and `tor_inet_pton`, and other address families: one-line dispatches.
- inetPton6 of pipe.zig: wraps a library parser.
- RegisterFileSystem: that the index stays non-nested is not promised for paths with doubled separators, where it fails; the leading `//` case, Windows separators and drive letters are not modelled, here and in the other mount operations; locks, URLs and the debug listing neither.
- GetVirtualPath: that some mount covers the path exactly when the nearest does is not promised for doubled separators, where LateDoubleIsExact says when it holds; the value written to the out-parameter when the call fails is not modelled.
- VulkanFenceHelper: generation numbers are unbounded, cleanup tasks do not call the helper again while they run, the driver's answers do not change during one scan, and waiting for the queue to go idle gives success or device lost, as the code checks.
- Scheduler: weak memory order is not modelled, and proxy releases, HTTP/2 and HTTP/3 waiters, and what the three kinds of message do to sockets are left out; a shutdown only tells whether it found its request.
- Cache: the first initialisation of the default context and the connection itself; clock readings are given and never go down.
- Version: `tor_version_parse` is a parameter, so the comparison, sorting and verdict results hold for every parser within the bounds it checks; the assertion on one's own version string is the type of its argument. `memoize_protover_summary` and platform parsing are left out.
- Sort: the library's quicksort is replaced by insertion; only content is promised, and order where the comparator is one.
- Connection: the TLS wrapper, handshake callbacks and the end of a tunnel; what the wrapper writes while flushing is input.
- MessageDispatcher: `objToError` and message payloads, which are opaque values here; a message of unknown type, which only throws.
- GetRegisteredPath: a read of the name map, whose meaning RegisteredPathStays states.
- NetErrorAutoReloader: `ShouldAutoReload` is an input; frames other than the primary main frame are ignored as in the code; the throttle is registered elsewhere.
- CountPrimes: console input and output, and the outer loop that ends on zero.
- networking/web_sock.rs, the layout tables of app/gpu/vulkan_util.cpp, app/graphics/glyph, start-up, configuration and user interface code: finite checks, foreign calls or thin wrappers that would add only easy members.
