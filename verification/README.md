# multiSSH: a verified model of its protocols

multiSSH lets machines behind NAT be reached over ssh: an agent on each machine keeps a connection to a proxy
open, and a user's ssh session is relayed to it. This project models the parts of it where something can go wrong
between two steps, and proves what those parts promise for every run, every interleaving and every input.

`dafny verify dfyconfig.toml` checks everything.

| files | what they model |
|---|---|
| `AgentProtocol`, `AgentInvariants`, `AgentAdmission`, `AgentTheorems`, `AgentReports`, `AgentProgress`, `AgentLimits`, `AgentReloads` | the registration protocol: any number of agent handlers, host key reports, ledger claims, the revocation watcher, as a state machine whose steps are the sections done under a lock. The close of a displaced connection, done after the lock is released, is a step of its own |
| `Registry` | the table of names, as the object that is updated in place |
| `RevocationReload`, `RevocationSweep`, `RevocationWatch` | stat-then-read against a file that is replaced under it; enforcing a new set on live connections; both in one protocol, from the file to the connections |
| `RevocationFile`, `Ledger`, `KeyedLines`, `SortedNames`, `GoText`, `Fingerprints` | the two text files: readers, writers, the ledger object, and exactly which contents survive |
| `Limiter` | the sliding-window limiter, with slices that are filtered within their own arrays |
| `Naming`, `Base64`, `Identification`, `TunnelPayload`, `PowerShell` | names derived from keys, and the wire formats |
| `Pipe`, `TunnelOpen` | splicing two channels, and handing one over under a timeout |
| `FileSystem`, `AtomicFile`, `RevocationStore`, `Installer` | a disk that can fail or crash at any operation; atomic replacement; update and rollback of the agent's binary |

A run of a protocol is a sequence of states and steps (`IsRun`). Nothing bounds its length, the number of
connections or the interleaving. Objects that are updated in place are classes, whose methods are proved against
functions on values; the theorems are about those functions and about runs.

Where a promise is false of the code, the project says exactly when it does hold, or gives the run in which it fails:

- A revocation is read back exactly when the new entry is recordable (`RevocationFile.CommandTakesEffect`). The
  length check lets a fingerprint with a space in it through, and the file then no longer loads at all
  (`RevocationFile.SpacedFingerprintSpoilsTheFile`). Fingerprints that ssh prints are always recordable
  (`Fingerprints.ComputedFingerprintIsRecordable`).
- A ledger claim is read back exactly when its entry is recordable and the last line in the file is ended, or blank
  with room for the joined line (`Ledger.ClaimInStep`). An unfinished last line loses two bindings at once
  (`Ledger.UnfinishedLineLosesBoth`), and a name that begins with `#` is granted and lost (`Ledger.CommentNameIsLost`).
  Over whole runs, with writes that stop anywhere, the file is in step at every moment exactly when each operation had
  what it needed (`Ledger.ReopeningGivesTheBindings`). Names an agent can present are always recordable
  (`Fingerprints.EveryClaimIsRecordable`).
- A reload keeps the revocation set right, in every run over a history of the file, exactly when the history is
  faithful: whenever a stamp comes back, no readable contents in between meant something else
  (`RevocationReload.FollowedExactlyWhenFaithful`). Distinct stamps are always faithful; an overwrite of a readable file
  by another meaning of the same size and time never is.
- The limiter keeps only keys with a recent event exactly when its burst and window are positive
  (`Limiter.KeysAreRecentExactlyWhenPositive`).
- A ledger reload can make the registry refuse what the ledger grants (`AgentReloads.ReloadDefeatsAGrant`). In no run
  after it does, exactly when the fresh bindings agree with memory on every friendly name that is registered or granted
  (`AgentReloads.ReloadIsHarmlessExactlyWhenItAgrees`); this needs one well-formed canonical name that nobody holds.
- The newest connection of a machine need not keep both names: the handler it displaced can take the friendly name
  back and close it (`AgentLimits.DisplacedHandlerCanCloseItsSuccessor`). `AgentLimits.FriendlyNameIsKept` says which
  step, and no other, does that.
- An update that was cut off and is run again leaves the original binary as the saved one exactly when the cut had left
  the original in place, if the second run saves, or already saved, if it does not (`Installer.RerunAfterACut`).

Three comments in the source say something else than the code, and the model follows the code: the limiter calls itself
fixed-window and is a sliding window; an update is said to keep the outgoing binary for a rollback, while a failed copy
of it is passed over; and the fingerprint check is described as checking the shape of what OpenSSH
prints, while it checks a prefix and a length.

SHA-256 is a parameter, any function from octets to 32 octets. Times are integers that do not decrease.

## Model

| member | source | states |
|---|---|---|
| `AgentInvariants.RunKeepsInv` | cmd/proxy/main.go:1060-1150 | in every state of every run: handlers hold only names they authenticated, entries lead to the handler that will take them out, a registered connection not closed or about to be is where its canonical name leads, only connections of one machine displace each other, the sweep's snapshot is true |
| `AgentInvariants.StepKeepsInv` | cmd/proxy/main.go:241-273 | each locked section, each close outside the lock and each watcher step keeps that invariant, whatever the others are doing |
| `AgentAdmission.ConnectingIsForTheWelcome` | cmd/proxy/main.go:627-695 | a connection is let in if and only if its certificate was accepted, its protocol is not below the minimum, its key is not barred and its user is a well-formed canonical name; its handler then carries what was offered, and the first valid friendly principal |
| `AgentAdmission.EveryHandlerWasLetIn` | cmd/proxy/main.go:627-695 | every handler in every run is there because an earlier connection step presented such an offer, welcome at that moment, and it is still who that offer said |
| `AgentAdmission.PrincipalIsFirstValid` | cmd/proxy/main.go:689-694 | no principal before the one chosen is a valid friendly name, and if none is chosen none is valid |
| `AgentAdmission.CanonicalNameIsRefusedOnlyToOthers` | cmd/proxy/main.go:1101-1108 | the first add is refused if and only if another fingerprint holds the name at that moment, whatever else has changed about the agent; else the entry is this connection's |
| `AgentAdmission.ClaimIsForTheHolder` | cmd/proxy/ledger.go:58-71 | a claim goes on to the second add if and only if the ledger binds the name to this machine or to nobody, and then it binds it to this machine |
| `AgentAdmission.FriendlyNameIsRefusedOnlyToOthers` | cmd/proxy/main.go:1118-1124 | the same for the second add, which ends in waiting either way |
| `AgentAdmission.AddsDisplaceTheirOwn` | cmd/proxy/main.go:249-254 | the connection left to be closed is exactly the one of the same machine that held the name, if it is another |
| `AgentInvariants.KeyCheckIsValid` | cmd/proxy/main.go:671-694 | whoever passes has a canonical name, a friendly name of the other kind or none, and a fingerprint not barred at that moment |
| `AgentTheorems.LookupFindsTheLiveConnection` | cmd/proxy/main.go:241-273 | a connection past its first add that is neither closed nor about to be closed is exactly what its canonical name leads to |
| `AgentTheorems.EntriesAreAuthentic` | cmd/proxy/main.go:1101-1125 | every entry leads to a connection that authenticated that name, and carries that connection's fingerprint and version |
| `AgentTheorems.FinishedLeavesNothing` | cmd/proxy/main.go:1103-1148 | when a handler has been refused or has finished, no entry leads to its connection; when it has finished the connection is closed |
| `AgentTheorems.MachinesDoNotDisturb` | cmd/proxy/main.go:241-266 | no step replaces or removes an entry of another fingerprint, and a displacing handler closes connections of its own machine only |
| `AgentTheorems.NamesChangeHandsOnlyWhenFree` | cmd/proxy/main.go:236-247 | over any stretch of a run in which a name stays registered, it keeps one fingerprint |
| `AgentTheorems.RunKeepsLedger` | cmd/proxy/main.go:1113-1125 | in every run, every friendly entry and every grant not yet used is bound in the ledger to that machine, at all moments so far, if and only if every ledger reload so far agreed with the names held when it came |
| `AgentTheorems.GrantedNamesAreNeverRefused` | cmd/proxy/main.go:1114-1124 | as long as every ledger reload agrees, after a granted claim the second add cannot fail |
| `AgentTheorems.RunKeepsHostFPs` | cmd/proxy/main.go:1070-1083 | every host fingerprint in the registry is empty or that of a key which re-derives the canonical name of the entry's connection |
| `AgentReports.ReportIsRecorded` | cmd/proxy/main.go:1070-1083 | an accepted report is recorded in every entry of its connection and nowhere else; any other report changes nothing |
| `AgentReports.EntriesShowTheLastReport` | cmd/proxy/main.go:308-320 | at every moment of every run an entry shows the key of the last accepted report of its connection since it was entered, or none if there was none |
| `AgentTheorems.ListingIsTrueAndUnique` | cmd/proxy/main.go:277-306 | in every reachable state any two listings are equal whatever order the map was visited in: one row for each canonical name, strictly sorted, each with the friendly name its connection holds and a host fingerprint that re-derives the name |
| `AgentProgress.ClosedHandlersFinish` | cmd/proxy/main.go:1101-1150 | from its key check on a handler takes at most fourteen steps of its own, and one whose connection is closed has finished or has a step of its own to take, whatever the others do |
| `AgentProgress.HandlersTakeFewSteps` | cmd/proxy/main.go:1101-1150 | over any stretch of a run, each step of a handler's own brings it nearer its end, and no other step moves it |
| `AgentProgress.ClosedHandlerCanMove` | cmd/proxy/main.go:1144-1148 | in any state the invariant allows, the handler of a closed connection that has not finished can take a step |
| `AgentProtocol.ChooseFriendly` | cmd/proxy/main.go:689-694 | the first principal that is a valid friendly name, or none |
| `AgentReloads.ReloadIsHarmlessExactlyWhenItAgrees` | cmd/proxy/ledger.go:119-128 | from any state the invariant allows, with one canonical name free: no run after a reload, without another, comes to a refused grant if and only if the fresh bindings agree on every held name, whoever is barred at that moment |
| `AgentReloads.DisagreementRefusesAGrant` | cmd/proxy/ledger.go:119-128 | any held name the fresh bindings do not agree on, dropped or bound to another machine, leads to a run in which another machine is granted it and the registry refuses |
| `AgentReloads.ReloadDefeatsAGrant` | cmd/proxy/ledger.go:119-128 | such a run from the start, for any machine that registers with a friendly name |
| `AgentLimits.DisplacedHandlerCanCloseItsSuccessor` | cmd/proxy/main.go:1103-1119 | a run in which a displaced handler takes the friendly name back and closes its successor, with no connection lost on its own |
| `AgentLimits.FriendlyNameIsKept` | cmd/proxy/main.go:1119-1123 | a live connection loses its friendly name in a step if and only if that step is the second add of another connection of the same machine |
| `Registry.ListingIsDetermined` | cmd/proxy/main.go:277-306 | where no connection has two friendly names, what a listing promises leaves one answer |
| `Registry.Registry.Add` | cmd/proxy/main.go:241-256 | refused only for a name of another fingerprint, leaving the table alone; otherwise the one entry changes, and the connection to close is the displaced one if it is another |
| `Registry.DepartureSparesTheSuccessor` | cmd/proxy/main.go:258-266 | a departing connection leaves its successor's entry and every other entry alone; the table is the same whether it departs before the successor's add or after; an add and the same connection's removal cancel out |
| `Registry.Registry.SetHostFP` | cmd/proxy/main.go:311-320 | every entry of this connection gets the fingerprint and keeps the rest, no other entry changes and no name comes or goes, in any order of visiting |
| `Registry.Registry.Connections` | cmd/proxy/main.go:325-333 | every registered connection, each once, with a fingerprint it registered |
| `Registry.Registry.Listing` | cmd/proxy/main.go:277-306 | one row per canonical name in order, each with its entry and a friendly name of the same connection if there is one |
| `RevocationSweep.RevocationIsComplete` | cmd/proxy/revoke.go:133-161 | after a set barring a fingerprint is installed the watcher takes a snapshot before it rests; when it rests, every connection of that fingerprint is from before the set, and closed or about to be unless it registered after the snapshot |
| `RevocationSweep.SweepIsComplete` | cmd/proxy/revoke.go:133-143 | once any sweep is over, every connection barred and registered at its snapshot is closed or about to be; so a latecomer falls to the next sweep |
| `RevocationSweep.BarredConnectionsAreOld` | cmd/proxy/main.go:654-658 | as long as a fingerprint stays barred no connection of it is added |
| `RevocationSweep.DoomIsForever` | cmd/proxy/main.go:251-254 | a connection closed, or about to be, stays so in every step |
| `RevocationSweep.NoRestWithoutASnapshot` | cmd/proxy/revoke.go:147-161 | the watcher cannot come to rest after installing a non-empty set without having taken a snapshot, and keeps the set until then |
| `RevocationSweep.SweepSparesTheRest` | cmd/proxy/revoke.go:137-142 | a sweep closes only connections of fingerprints in the set |
| `RevocationWatch.RevokedInTheFileIsSwept` | cmd/proxy/revoke.go:58-161 | the file, the reload, the sweep and the handlers in one run: if a tick's stat finds a file that bars a fingerprint, it goes on to until the watcher rests, no read fails and the history up to the stat is faithful, then the tick takes a snapshot, and at its end every connection of that machine is from before the snapshot and, if it had registered by then, closed or about to be |
| `RevocationWatch.RunStaysJoined` | cmd/proxy/revoke.go:66-80 | in every such run both protocols keep their invariants, the set enforced is the set held, and the watcher does nothing else during a reload |
| `RevocationReload.FollowedExactlyWhenFaithful` | cmd/proxy/revoke.go:58-81 | for any history of files on the path: in every interleaving of reloads with it, an equal stamp means an equal set, if and only if the history is faithful |
| `RevocationReload.EqualStampsMeanEqualSets` | cmd/proxy/revoke.go:58-81 | in any interleaving with atomic replacements that make a faithful history, an equal stamp means the set in memory is what the file means, at every moment |
| `RevocationReload.DistinctStampsAreFaithful` | cmd/proxy/revoke.go:59-64 | histories in which no stamp comes back are faithful |
| `RevocationReload.OverwriteUnderOneStamp` | cmd/proxy/revoke.go:59-71 | other contents put in place at once under the same size and time are missed |
| `RevocationReload.StepKeepsMarks` | cmd/proxy/revoke.go:58-81 | at each stage of a reload, and through any replacement, the stamp and the set held or on the way are those of two moments of the history, the stamp's not the later one |
| `RevocationReload.UndisturbedReloadConverges` | cmd/proxy/revoke.go:58-81 | one undisturbed reload leaves the set the file means and its stamp, or, if the file does not parse, fails and leaves both as they were |
| `RevocationReload.StagesAreReload` | cmd/proxy/revoke.go:58-81 | the stages of the protocol, run without interruption, are the reload method, on every outcome of its stat and its open |
| `RevocationReload.EveryOutcomeOfReload` | cmd/proxy/revoke.go:58-81 | whatever is held: a failed stat, a failed open and contents that do not parse keep set and stamp; a missing file bars nobody; readable contents become the set with the stamp taken before |
| `RevocationReload.RecurringStampHidesAnUpdate` | cmd/proxy/revoke.go:59-78 | for any three moments that show a history unfaithful, a run over it that ends at rest with the stamps equal and the set wrong |
| `RevocationReload.Revocations.Reload` | cmd/proxy/revoke.go:58-81 | set, stamp and report after a reload, for every outcome of its stat, open and read; after a failure of any of them set and stamp are as they were |
| `RevocationReload.Revocations.Sweep` | cmd/proxy/revoke.go:133-143 | the connections closed are those of barred fingerprints, all of them and only them, in any order of visiting |
| `RevocationFile.ReadRevocations` | cmd/proxy/revoke.go:83-113 | the loop computes what the file means: the last note for each fingerprint, or an error |
| `RevocationFile.FileMeans` | cmd/proxy/revoke.go:94-112 | a file loads if and only if no line is too long for the scanner and none, neither blank nor a comment, has a first word that is no fingerprint; then a fingerprint is barred if and only if it is such a first word, with the rest of its last line as the note |
| `RevocationFile.ManagedIsIntended` | cmd/proxy/revoke.go:183-238 | which commands write, fail and leave the file alone, and of one that writes, the set: after an un-revoke that fingerprint is gone, after a revoke it is there with its note, and every other keeps its presence and note |
| `RevocationFile.ParseYieldsRecordable` | cmd/proxy/revoke.go:94-112 | whatever a file can be read as is a set that can be written back |
| `RevocationFile.WriteThenRead` | cmd/proxy/revoke.go:256-276 | writing a set and reading it gives the same set if and only if every entry is recordable |
| `RevocationFile.ManageRevocations` | cmd/proxy/revoke.go:177-240 | the text written is that of the intended set; nothing is written and nothing reported by a command that leaves the file alone; the others fail |
| `RevocationFile.CommandTakesEffect` | cmd/proxy/revoke.go:199-232 | the file a command writes reads back as the intended set: always for an un-revoke, and for a revoke exactly when the new entry is recordable |
| `RevocationFile.SpacedFingerprintSpoilsTheFile` | cmd/proxy/revoke.go:166-174 | any fingerprint the check accepts that has a space in it leaves a file that does not load |
| `RevocationFile.WriteRevocations` | cmd/proxy/revoke.go:256-276 | the header, any comment lines, then one line for each entry in strict order of fingerprints, whatever order the map was visited in |
| `Fingerprints.ComputedFingerprintIsRecordable` | cmd/proxy/revoke.go:166-174 | for a fingerprint ssh computes, the entry is recordable if and only if the note is trimmed, on one line and within the scanner's limit |
| `Fingerprints.EveryClaimIsRecordable` | cmd/proxy/main.go:689-694 | every claim a registering agent can make is one the ledger file can hold |
| `Fingerprints.FingerprintsAgree` | cmd/proxy/main.go:654 | two keys have one fingerprint if and only if they have one digest |
| `Ledger.OpenLedger` | cmd/proxy/ledger.go:26-49 | the loop computes the bindings the file means |
| `Ledger.FileMeans` | cmd/proxy/ledger.go:38-48 | a file loads unless a line is too long for the scanner; a name is bound if and only if it is the first word of a line with a space that is no comment, to the rest of the last such line |
| `Ledger.Book.Claim` | cmd/proxy/ledger.go:58-71 | granted to the holder or to the first to ask; memory and file afterwards, however much of the line got into the file |
| `Ledger.Book.AppendLine` | cmd/proxy/ledger.go:73-81 | what was in the file stays; it grows by the line, or on an error by a prefix of it, and by all of it if the write was long enough |
| `Ledger.Book.Forget` | cmd/proxy/ledger.go:90-115 | the binding goes; reported as released only if the file is the sorted rewrite; a failed write leaves the file alone or a prefix of the rewrite |
| `Ledger.ClaimInStep` | cmd/proxy/ledger.go:58-81 | on any file that reads as the bindings in memory: a claim appended in full is read back if and only if its entry is recordable and the last line is blank or ended, with room for the joined line |
| `Ledger.ClaimReadsBack` | cmd/proxy/ledger.go:73-81 | the same for an append that stopped anywhere: exactly what must have got into the file |
| `Ledger.UnfinishedLineLosesBoth` | cmd/proxy/ledger.go:38-46 | any two recordable bindings, one on an unfinished last line: the claim of the other is granted, and neither is read back |
| `Ledger.ShortRewrite` | cmd/proxy/ledger.go:102-115 | a rewrite that stopped anywhere gives the bindings if and only if all but the last newline is there, or there are none |
| `Ledger.ForgetInStep` | cmd/proxy/ledger.go:90-115 | a rewrite mends whatever the file was before: re-opening gives the bindings in memory if and only if they are recordable |
| `Ledger.ReopeningGivesTheBindings` | cmd/proxy/ledger.go:26-115 | over any run of claims and releases, on any file to begin with and whatever becomes of each write, re-opening gives the bindings in memory at every moment if and only if each operation had what it needs |
| `Ledger.SuccessfulWritesStayInStep` | cmd/proxy/ledger.go:26-115 | in particular when every write succeeds, claims are recordable and the file began with ended lines, across any mix of appends and rewrites |
| `Ledger.CommentNameIsLost` | cmd/proxy/ledger.go:40-43 | any name that reads as a comment is granted and not read back |
| `SortedNames.CollectSorted` | cmd/proxy/ledger.go:106-110 | the keys of a map in strict order, whatever order they were visited in |
| `SortedNames.InOrderUnique` | cmd/proxy/main.go:290 | a set of names has one listing in strict order |
| `SortedNames.LessMeans` | cmd/proxy/main.go:290 | the order is that of the first difference, a proper beginning coming first |
| `KeyedLines.BuildBody` | cmd/proxy/ledger.go:111-113 | the loop renders one line per name, in the order given, behind what was there |
| `KeyedLines.TableIsLaidOut` | cmd/proxy/revoke.go:258-272 | the lines of a written file are the header's, then a key, a space and its value for each key, in strict order |
| `GoText.RawLinesConcat` | cmd/proxy/ledger.go:73-81 | text appended to whole lines adds its own lines and disturbs none |
| `Limiter.Bucket.Allow` | cmd/proxy/enroll.go:207-227 | answer, stored events and sweep time after an attempt, for slices compacted within their own arrays; no other key's events are disturbed |
| `Limiter.Bucket.Count` | cmd/proxy/enroll.go:194-205 | how many events of the key are newer than the cutoff |
| `Limiter.Bucket.SweepLocked` | cmd/proxy/enroll.go:172-190 | exactly the keys without an event in the window go, at most once a window, in any order of visiting |
| `Limiter.Bucket.Compact` | cmd/proxy/enroll.go:215-220 | filtering a slice in place leaves exactly its fresh events, in order |
| `Limiter.LimiterRefinesFullHistory` | cmd/proxy/enroll.go:172-227 | over any sequence of calls the answers are those of a limiter that remembers everything and never sweeps |
| `Limiter.EveryAnswerIsRight` | cmd/proxy/enroll.go:192-227 | going by the answers alone: an attempt is let through if and only if fewer than burst of its key were let through in the window that ends with it, and a count is how many were |
| `Limiter.SweepsAreRareAndExact` | cmd/proxy/enroll.go:172-190 | a sweep is made only when a window has gone by since the last, and drops exactly the keys without an event in the window |
| `Limiter.AtMostBurstPerWindow` | cmd/proxy/enroll.go:207-227 | in every interval (t - window, t] each key is let through at most burst times |
| `Limiter.KeysAreRecentExactlyWhenPositive` | cmd/proxy/enroll.go:166-190 | right after an allow every stored key has an event newer than two windows ago, in all runs, if and only if burst and window are positive |
| `Naming.HashInputInjective` | internal/sshx/naming.go:75-82 | no two pairs of valid label and key have the same hash input |
| `Naming.HashInputIsFramed` | internal/sshx/naming.go:60-82 | what is hashed is the domain, a NUL, the label, a NUL and the key, octet for octet |
| `Naming.TwelveDigitsAreSixtyBits` | internal/sshx/naming.go:31-35 | twelve base32 digits agree if and only if the first sixty bits of the digests do |
| `Naming.TwelveDigitsAreWorthSixtyBits` | internal/sshx/naming.go:33-35 | the digits of a name, read as a base 32 number, are the first sixty bits of the digest, read as a number |
| `Naming.DigitsAreTheAlphabet` | internal/sshx/naming.go:35 | each digit is the character at its place in the alphabet |
| `Naming.CanonicalNamesAgree` | internal/sshx/naming.go:71-84 | two names are equal if and only if the labels are and the digests share their first sixty bits |
| `Naming.DerivedNamesAreCanonical` | internal/sshx/naming.go:52-58 | every derived name is a well-formed canonical name, none is a friendly one, and its label can be cut off again |
| `Naming.VerifiesWhenDerived` | internal/sshx/naming.go:88-95 | a key verifies a name if and only if the name is derived from it under some valid label |
| `Naming.NamespacesAreDisjoint` | internal/sshx/naming.go:37-58 | well-formed canonical names have a dot and valid friendly names have none |
| `Identification.ParseInvertsFormat` | internal/sshx/protocol.go:118-142 | number, build and platform come back for every number that fits an int, with or without a comment; without a build there is no platform |
| `Identification.AgentIsReadBack` | internal/sshx/protocol.go:71-82 | what an agent announces is what the proxy reads |
| `Identification.ProxyIsReadBack` | internal/sshx/protocol.go:85-116 | what the proxy announces is what an agent reads |
| `Identification.MalformedFieldsAreDropped` | internal/sshx/protocol.go:118-142 | any text in the fields: the number counts if it is one and not negative, and a field of the wrong shape is dropped by itself |
| `Identification.AtoiMeans` | internal/sshx/protocol.go:128-131 | a number may have a sign, and counts if it fits an int |
| `Identification.PrefixesDoNotMix` | internal/sshx/protocol.go:91-116 | an agent's string reads as legacy under the proxy's prefix, and the other way round |
| `Identification.ReadingIsAlwaysClean` | internal/sshx/protocol.go:133-141 | whatever a peer sends, what is kept is a number within range and fields of the expected shape |
| `Identification.AnnouncementsAreLegal` | internal/sshx/protocol.go:52-85 | both ends' strings are legal under section 4.2 of RFC 4253, length included |
| `Identification.AtoiItoa` | internal/sshx/protocol.go:128-131 | decimal text of a number reads back as the number |
| `TunnelPayload.ParseInvertsEncode` | internal/sshx/protocol.go:183-196 | every encodable request comes back from its section 5 of RFC 4251 encoding |
| `TunnelPayload.EncodingIsLaidOut` | internal/sshx/protocol.go:177-185 | version and length as numbers in four octets each, the most significant first, then Extra and nothing else |
| `TunnelPayload.ParseTunnelRequestMeans` | internal/sshx/protocol.go:190-196 | an encoding gives its request, and every other octet string reads as version 0 |
| `TunnelPayload.UnmarshalOnlyEncodings` | internal/sshx/protocol.go:190-196 | what is accepted is the encoding of what it is read as, octet for octet |
| `TunnelPayload.AppendedFieldReadsAsLegacy` | internal/sshx/protocol.go:171-176 | any field appended to any payload makes it read as legacy |
| `TunnelPayload.NestedFieldSurvives` | internal/sshx/protocol.go:171-185 | a field nested in Extra comes back octet for octet |
| `Base64.DecodeEncode` | cmd/agent/pty_windows.go:91 | base64 decoding undoes encoding for every octet string |
| `Base64.QuadIsTheNumber` | cmd/agent/pty_windows.go:91 | four digits, read as a base 64 number, are the three octets, read as a number |
| `Base64.DigitsAreTheAlphabet` | cmd/agent/pty_windows.go:91 | each digit is the character at its place in the alphabet of RFC 4648 |
| `Base64.RawIsEncodeUnpadded` | cmd/proxy/main.go:654 | the unpadded form is the padded one without its pads |
| `PowerShell.EncodeForPowerShell` | cmd/agent/pty_windows.go:85-92 | the loop's buffer, and so the argument, is base64 of the little-endian UTF-16 of the command |
| `PowerShell.ArgumentDecodes` | cmd/agent/pty_windows.go:83-92 | base64-decoding and then UTF-16-decoding the argument gives the command back, surrogate pairs included |
| `PowerShell.UnitsOfOneCharacter` | cmd/agent/pty_windows.go:86 | a character is itself or a surrogate pair, high one first, that carries it ten bits each |
| `PowerShell.OctetsOfUnits` | cmd/agent/pty_windows.go:87-90 | the octets at places 2i and 2i+1 are unit i, the low one first |
| `PowerShell.ArgumentNeedsNoQuoting` | cmd/agent/pty_windows.go:65-69 | the argument is whole groups of alphabet characters with at most two pads, at its very end |
| `Pipe.ReceivedIsAPrefixOfRead` | internal/sshx/sshx.go:149-165 | at all times what a side was given is a prefix of what was read from the other, under any chunking, interleaving and errors |
| `Pipe.EndsComeInOrder` | internal/sshx/sshx.go:154-164 | no write follows its half-close, no half-close comes twice, and both closes follow both half-closes, in order |
| `Pipe.ErrorFreePipeDeliversEverything` | internal/sshx/sshx.go:147-165 | a direction without an error has delivered its whole stream before its half-close and before any close |
| `Pipe.OverMeansClosed` | internal/sshx/sshx.go:162-164 | a Pipe can do nothing more if and only if both channels are closed, and then the two closes came last, after both half-closes |
| `Pipe.RunsEnd` | internal/sshx/sshx.go:149-165 | but for reads that bring nothing, a run has at most three steps for each octet sent and six more |
| `Pipe.RunKeepsInv` | internal/sshx/sshx.go:149-165 | the loops' states and the log of what the channels were told agree in every state of every run |
| `TunnelOpen.OpenerNeverBlocks` | cmd/proxy/main.go:1373-1377 | the goroutine that opened the channel can always send its result |
| `TunnelOpen.ChannelIsConserved` | cmd/proxy/main.go:1379-1392 | an opened channel is in exactly one pair of hands or has been closed once, one that failed to open in none, at all times |
| `TunnelOpen.CallerGetsTheAnswer` | cmd/proxy/main.go:1379-1384 | what the caller receives in time is what the agent answered: a channel it then holds, or the end |
| `TunnelOpen.ReceivedChannelIsPiped` | cmd/proxy/main.go:1412-1429 | a channel received in time is held, then piped once the client is accepted, and closed by nothing but the end of the piping, unless accepting fails |
| `TunnelOpen.DrainerMeansNotReturned` | cmd/proxy/main.go:1385-1391 | once a drainer exists the caller has given up for good: never both returned and drained |
| `TunnelOpen.QuietMeansClosed` | cmd/proxy/main.go:1412-1429 | when nothing but the agent's answer can still happen, the caller has returned and an opened channel has been closed exactly once |
| `TunnelOpen.RunsAreShort` | cmd/proxy/main.go:1366-1393 | every run ends: each step leaves fewer steps to do |
| `AtomicFile.WriteFileAtomic` | internal/sshx/sshx.go:42-77 | at every moment a reader finds the old file or the new one, and so does a crash; on success it is the new one, after the directory sync for good; on failure the name is untouched; no other name changes |
| `AtomicFile.FillAndSync` | internal/sshx/sshx.go:52-66 | the temporary file alone is touched, and is whole and synced on success |
| `AtomicFile.SwapIn` | internal/sshx/sshx.go:67-75 | the rename replaces the name by the synced file and nothing in between |
| `AtomicFile.UntouchedOrReplacedIsSafe` | internal/sshx/sshx.go:35-41 | a name that stands for its old inode or for a synced new one holds the old or the new contents, for readers and after a crash |
| `AtomicFile.DurableMeansSettled` | internal/sshx/sshx.go:70-75 | with the directory synced, a crash can leave nothing but the new contents |
| `FileSystem.Machine.Write` | internal/sshx/sshx.go:56-59 | a write shows every prefix it goes through, and an error leaves one of them |
| `RevocationStore.RunCommand` | cmd/proxy/revoke.go:177-276 | at every moment of a command that writes, the file means the old set or the intended one, to readers and after a crash; a command that fails or leaves the file alone leaves the disk alone |
| `RevocationStore.CrashLeavesAWholeSet` | cmd/proxy/revoke.go:273-275 | from a file at rest, a crash leaves the old or the new set whole, never a part of either |
| `Installer.Life` | cmd/proxy/scripts/install.sh:380-451 | any number of updates and rollbacks, each failing or cut off anywhere: the binary is never missing, partial or of unknown origin, the saved one, if it is not the one found at the start, was once in place, and the manifest does not disappear |
| `Installer.RunUpdate` | cmd/proxy/scripts/install.sh:480-509 | every moment of an update, what it leaves, and that with no failing operation it succeeds exactly for an acceptable binary and saves the outgoing one |
| `Installer.RunRollback` | cmd/proxy/scripts/install.sh:439-451 | every moment of a rollback, what it leaves, and that with no failing operation it succeeds exactly when there is a manifest and a saved binary |
| `Installer.DownloadBinary` | cmd/proxy/scripts/install.sh:398-435 | the binary changes only to one that was pushed or has the expected hash, after the outgoing one was saved or its copy failed |
| `Installer.Obtain` | cmd/proxy/scripts/install.sh:402-427 | only the scratch name is touched; success means pushed or verified, and with no failing operation it is exactly that |
| `Installer.SaveOutgoing` | cmd/proxy/scripts/install.sh:430-433 | the saved binary is the old saved one or the outgoing one at every moment; a failed copy is passed over, a failed rename is not |
| `Installer.SetManifestVersion` | cmd/proxy/scripts/install.sh:253-257 | the manifest is the old text at every moment, or the new one, in which the lines that begin with the version key are replaced and every other line is as it was |
| `Installer.StampedLineByLine` | cmd/proxy/scripts/install.sh:251-257 | line by line: one that begins with M_VERSION= becomes M_VERSION='v', any other is as it was, and there are as many as before |
| `Installer.ThereAndBack` | cmd/proxy/scripts/install.sh:439-509 | after an update and a rollback the binary is exactly the original if the update saved it, and the one saved before if not; with no failing operation an update that applies succeeds and saves exactly for an acceptable binary |
| `Installer.RerunAfterACut` | cmd/proxy/scripts/install.sh:430-434 | an update cut off at any moment and run again: if it saves, the saved binary is the original if and only if the cut left the original in place, and otherwise both names hold the new one |
| `Installer.DuringIsSane` | cmd/proxy/scripts/install.sh:380-394 | whatever moment of a run it is cut off at, the state is one the next run can start from |

## Left out

- Certificate checking, TLS, HTTP, WebSocket, the ssh transport and password hashing: library code. That a certificate is accepted is an input of the key check.
- A ledger reload that runs concurrently with a claim: the file is read before the lock is taken, so a claim in between can drop out of memory. In the protocol a reload installs arbitrary bindings in one step.
- Ledger.Book.AppendLine: does not model a write that stops inside the octets of one character; names and fingerprints an agent can present are ASCII.
- The words of the two headers: a header is any comment lines, which both of the source's are, and nothing depends on more.
- Invalid UTF-8 in the files and in commands: text is Unicode scalar values, measured by the length of its UTF-8 form.
- Limiter.Bucket.SweepLocked: does not model the saturation of a duration measured from Go's zero time; the first sweep is due in both.
- AgentProtocol handlers are not threads over the shared objects: they are steps on a value, and the Registry and Ledger objects are proved against the same functions those steps use.
- AgentReloads.DisagreementRefusesAGrant takes any text as a machine's fingerprint, since the key check is given one; bindings to text that no key hashes to are not told apart.
- Parsing the host key report: a report is a key, and an unreadable one is no step.
- The -list-revoked listing, the warning about a fingerprint no machine has presented, and all log output: user interface.
- RevocationSweep.RevocationIsComplete does not say that the watcher ever runs, nor that a decided close is carried out by a deadline: the 30 second period and scheduling are not modelled.
- Pipe does not model blocking or back-pressure, only what has been read, written and closed.
- AtomicFile.WriteFileAtomic: does not model other processes writing the same name in between, nor permission bits; the file may be replaced by others in RevocationReload.
- Installer: cut-offs are of the script (a kill), not of the machine's power; copies are not synced by the script.
- Installer.SetManifestVersion: does not model characters that are special in a sed replacement; versions are hex digits or build identifiers. That the manifest describes the installed binary is false between the swap and the rewrite, and is not stated.
- Installer: the first install, enrolment, the hand-over to a freshly fetched script, the saved copy of the script, directories, and the service restart that ends every run.
- The 32-bit int: the identification's number is a 64-bit int, as on every platform the agent is built for.
- slots, buildState, sightings, session start, reconnect backoff, the other deployment scripts and the Windows installer: they would add only easy members or process control.
