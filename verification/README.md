# The state that an OVNode agent keeps

OVNode is the agent that runs beside an OpenVPN server. It counts the traffic of every user, issues and
revokes client certificates, keeps a policy file per user, limits the panel's requests, holds a lease for the
one panel it is paired with, and repairs the directives it owns in `server.conf`. Almost all of its state
lives in small files that several processes share: the OpenVPN hooks, the long-running service and the
command line. Each file is replaced by writing a temporary file and renaming it, and related changes are
serialised by file locks.

This project models that state and the operations on it, and proves what they keep over whole runs, when any
write may fail and any process may stop between two writes.

## How it is built

The code that changes state step by step is a class whose methods follow the source statement by statement
(`UsageDir`, `Agent`, `UserDir`, `Authority`, `UserAdmin`, `Limiter`, `Pairing`, `ConfFile`). Every such method
is proved equal to a function on values, and the laws are proved about those functions and about runs of them.
The functions describe one atomic file replacement as one step. Where a call makes several, a fault parameter
says which of them happen; a crash and an error return leave the same files.

- `Wrappers`, `Text`, `Names`, `Sums`: results, the string and number primitives, common names, finite sums.
- `Counter`, `CounterHistory`, `CounterLaws`: the usage counter of one user, its relation to the history of calls, and
  which files it can be read from.
- `Markers`, `Hooks`, `Agent`: session markers, the connect and disconnect hooks, the usage poll and the purge.
  `AccountingRuns`, `Isolation`, `ScanFailures`: what every run of them keeps, which markers and counter entries
  a call can touch, and what an unreadable marker costs. A purge is two steps of a run: other processes may come
  between the removal of markers and the scan that follows it.
- `FinalBanking`, `Admission`, `PollLaws`, `Retirement`: what a disconnect closes, whom a connect admits and what it
  banks first, which session a polled row belongs to, and which markers and receipts go, in terms of the environment's
  texts, the policy files and the markers' own fields.
- `HookCalls`, `HookHistory`: every step of such a run as calls on one user's counter, and the counter laws for
  runs of the hooks themselves.
- `Policy`, `PolicyLaws`: the merged policy file beside the legacy split files, and what they say line by line.
- `PkiIndex`, `Pki`, `PkiRuns`, `NameRevocation`, `IndexLaws`: the certificate index, serials, the CRL and its number.
- `UserDelete`, `DeletionRuns`, `DeletionRetries`: the delete sequence, stopped anywhere and retried;
  `CertificateLifetime`: from an issuance to the deletion of its user.
- `Lifecycle`: queued operations on one user as a transition system, because they are separate processes.
- `RateLimit`, `RateRuns`: the limiter, against the plain history of accepted calls.
- `Pairing`: the panel lease.
- `ServerConf`, `ConfRepair`, `AgentDirectives`, `ConfTidy`, `ConfSettles`, `ConfContents`: the repair of
  `server.conf`, the lines that the agent wants in it, when repairs settle, and what a repaired file says. The runtime
  user and group it wants may come from the file.

Parameters stand for what the files do not determine: the clock, random generation ids, new epochs, which
texts `time.Parse` accepts as a certificate time, the order in which directories and maps are visited, the
live rows of the status file, and the outcome of a management take-over. A CRL is a number, a list of entries
and an issuer.

## What the code does differently from its promises

- A disconnect that finds no marker under its own key removes legacy names by prefix and suffix. The comment says
  the names of one user; the code also reaches current markers of other users: of `cn.rest` at the same pool address
  (`Isolation.LongerNameIsRemoved`), and of `u` when the disconnecting name is `u.r` and the pool address begins with
  `r.` (`Isolation.ShorterNameIsRemoved`). `Isolation.OthersSparedExactly` says, for any disconnect, exactly when
  other users' markers stay; they always do while no user name has a dot (`Isolation.UndottedNamesAreSafe`).
- A scan of the session directory skips a marker that it cannot read, and one that cannot list the directory reads
  none; the retirement of receipts goes on with what was read. The receipt of a closed session whose marker was
  skipped is then dropped (exactly: `Retirement.PollRetiresExactly`, `Retirement.PurgeRetiresExactly`),
  and a repeated disconnect counts its bytes again (`ScanFailures.UnreadMarkerIsCountedAgain`, with an input in
  `ScanFailures.UnreadMarkerExample`). So the law that a
  receipt outlives its marker asks that the scans in between read that marker.
- The repair of `server.conf` takes the runtime user and group from the file when the environment does not set them.
  A second repair changes nothing exactly when the setup is clean and both names are found
  (`ConfSettles.RepairIsProjection`); a file that names an empty user in quotes takes two repairs
  (`ConfSettles.QuotedEmptyUserTakesTwo`). Two repairs always settle the file of a clean setup, and without one no
  call ever finds the file up to date (`ConfSettles.TwoRepairsSettle`). A setup is clean when no exported setting or
  file name is empty or ends in white space that is not quoted, and none of them breaks a line where it is not quoted.
- The index does not read back a row that it wrote for a name with a tab or a line break (`PkiIndex.AppendAddsOneRow`
  says exactly when it does). Such a name reaches the index only as an untrimmed argument: issuing checks the name as
  `SafeCN` trims it but goes on with the name as given, while the HTTP routes trim names before they call it.
- Deleting a user whose material is gone and who is not disabled removes the folder without any revocation. The law
  that nothing of a user is removed before the CRL lists the name's certificates therefore holds exactly for a user
  who has material or is disabled, whose certificates are listed already, who has no folder or no readable policy, or
  whose name is invalid (`DeletionRuns.OrderHoldsExactly`).

## Model

| member | source | states |
|---|---|---|
| `Names.SafeCN` | internal/fsx/name.go:20-32 | a name is accepted exactly as its trimmed form, and only as a store key |
| `Names.SafeCNExactly` | internal/fsx/name.go:20-32 | a name is accepted exactly when it is a store key with any white space around it, and as that key |
| `Names.Sanitize` | internal/fsx/name.go:36-47 | sanitizing keeps the length, yields key characters only, and is the identity exactly on names made of them |
| `Names.SanitizeExactly` | internal/fsx/name.go:36-47 | exactly the characters that no key can have become underscores |
| `Counter.GenerationShape` | internal/store/counter.go:48-73 | an id carries a generation exactly when it is a nonempty key, a dot and 16 hexadecimal digits, and the key is recovered from it |
| `Counter.UsageDir.FillMarkerKeys` | internal/store/counter.go:146-151 | filling in marker keys in any order gives the same sessions |
| `Counter.UsageDir.Load` | internal/store/counter.go:80-153 | a missing counter is fresh, a digit file is a legacy total, and a corrupt, incomplete or unknown file is an error and never zero |
| `Counter.UsageDir.Observe` | internal/store/counter.go:198-222 | one observation credits exactly the growth of the session's high-water mark, nothing once it is closed, and fails on overflow |
| `Counter.UsageDir.RecordSessionUsage` | internal/store/counter.go:178-234 | the whole new file: total, offset and receipt change together or not at all |
| `Counter.UsageDir.BankUsage` | internal/store/usage.go:16-59 | a delta is added without touching sessions; overflow, zero and I/O errors change nothing |
| `Counter.UsageDir.DropReceipts` | internal/store/counter.go:252-258 | exactly the closed sessions that are not present go |
| `Counter.UsageDir.PruneReceipts` | internal/store/counter.go:239-268 | pruning writes only when a receipt goes, so it never creates or upgrades a counter |
| `Counter.UsageDir.ResetUsage` | internal/store/counter.go:272-302 | a reset zeroes the total, keeps open offsets, drops closed receipts and rotates the epoch |
| `Counter.RecordReadsBack` | internal/store/counter.go:178-234 | what a record returns is what the next reader gets, and it is the old state with one observation applied |
| `Counter.OverflowTestIsExact` | internal/store/counter.go:208-215 | the 64-bit wrap-around test rejects exactly the sums that reach 2^64 |
| `CounterHistory.CounterRefinesHistory` | internal/store/counter.go:178-302 | after any calls, zeroed totals plus the current total are the base, the banked deltas and one high-water mark per session generation |
| `CounterHistory.EachIdCountsItsMaximumOnce` | internal/store/counter.go:204-228 | while no id returns after its receipt was dropped, the counter is the sum over ids of the maximum observed up to the first closed call |
| `CounterHistory.BytesAreConserved` | internal/store/counter.go:178-302 | with no side condition, total is carried base and deltas plus retired receipts plus each stored session's bytes since the last reset |
| `CounterHistory.FilesFollowPlay` | internal/store/counter.go:178-302 | the file follows the history machine through every run, whatever calls the disk fails |
| `CounterLaws.CounterReadsExactly` | internal/store/counter.go:80-153 | which counter files can be read, and the total and sessions that they stand for |
| `CounterLaws.UnreadableCounterIsKept` | internal/store/counter.go:178-302 | a counter file that cannot be read is never rewritten, whatever is called |
| `CounterLaws.OnlyResetsRotateEpochs` | internal/store/counter.go:272-302 | over any calls the epoch changes exactly by committed resets |
| `Markers.ReadMarker` | internal/store/sessions.go:57-103 | reading line by line computes the parse of the whole file |
| `Markers.ReadWrittenMarker` | internal/store/sessions.go:45-103 | reading a written marker restores every written field and mirrors the id and the start |
| `Markers.StartNamesReadAlike` | internal/store/sessions.go:91-99 | the three names of a connection start are read alike |
| `Markers.IdNamesReadAlike` | internal/store/sessions.go:81-90 | the two names of a session id are read alike |
| `Hooks.ChooseMarker` | internal/ovpn/usage.go:200-234 | the running best is an eligible marker with the greatest stamp, the earliest on ties, or none exactly when none is eligible |
| `Hooks.ChooseIsBest` | internal/ovpn/usage.go:200-234 | the same for the choice that the run lemmas use |
| `Agent.Agent.RemoveLegacyMarkers` | internal/store/sessions.go:129-149 | exactly the removable legacy names go, in whatever order the directory is listed |
| `Agent.Agent.Disconnect` | internal/hooks/disconnect.go:24-100 | the markers and counters after a disconnect, with every early return and every failing step, an unreadable or unexaminable marker included |
| `FinalBanking.OwnDisconnectCloses` | internal/hooks/disconnect.go:60-96 | in every run, the disconnect of the connection that installed a marker removes it and closes its session with the larger of the bytes so far and the sum of its two counts, or changes nothing when the total has no room |
| `FinalBanking.LegacyDisconnectCloses` | internal/hooks/disconnect.go:115-124 | so does any disconnect that finds a marker without a generation |
| `Agent.Agent.BankDisplacedGeneration` | internal/hooks/connect.go:211-230 | the displaced marker's session is closed with the bytes of the first row at its pool address; a marker that cannot be read is displaced without |
| `Admission.DisplacedIsClosed` | internal/hooks/connect.go:211-230 | a client is admitted over the marker of another session only once that session is closed with the bytes of the first live row at the pool address |
| `Admission.NothingToBank` | internal/hooks/connect.go:211-227 | without such a row, marker or session id no counter changes |
| `Agent.Agent.Admit` | internal/hooks/connect.go:61-177 | who is admitted: malformed, disabled, unreadable, unlimited, below the limit, taken over |
| `Admission.LiveRowsAreCounted` | internal/hooks/connect.go:298-307 | the sessions counted are the rows of the user with an address or a client id |
| `Admission.AdmittedExactly` | internal/hooks/connect.go:85-177 | when nothing else goes wrong the policy on disk decides: unreadable or disabled is refused, limit 0 admits, a higher limit admits below that many live sessions, limit 1 also after a take-over that did not time out |
| `Admission.RefusedLeavesNoTrace` | internal/hooks/connect.go:61-98 | a malformed or disabled client, or one without policy, user tree, session directory or lock, is refused and changes nothing |
| `Agent.Agent.InstallMarker` | internal/hooks/connect.go:179-200 | the new marker replaces the old one only after the old one was banked |
| `Agent.Agent.Connect` | internal/hooks/connect.go:46-205 | the markers and counters after a connect, and whether it admits |
| `Admission.AdmittedLeavesMarker` | internal/hooks/connect.go:103-200 | an admitted client leaves one marker with its user, addresses, start and session id; a refused one none |
| `Admission.SameKeyExactly` | internal/store/sessions.go:30-41 | two connections of a user with pool addresses share a marker file exactly when the addresses are the same |
| `Admission.SameRealKeyExactly` | internal/store/sessions.go:30-41 | without pool addresses, exactly when real address and port are the same |
| `Agent.Agent.RecordRows` | internal/ovpn/usage.go:60-100 | the counters after booking the rows of one user; the first failure ends the poll |
| `PollLaws.BookedUnderExactly` | internal/ovpn/usage.go:73-94 | a row is booked under an id exactly when that is the latest older marker of the user at its pool address, or without one and at its real address and port; for a user without markers, the row's own identity |
| `PollLaws.PollBooksExactly` | internal/ovpn/usage.go:60-100 | a poll that gets through its rows raises every open entry to the largest count of the rows of its session, and leaves closed and other entries alone |
| `PollLaws.PollChangesOnlyItsRows` | internal/ovpn/usage.go:60-100 | any poll changes only entries of sessions that its rows belong to |
| `PollLaws.OnlyMarkerTakes` | internal/ovpn/usage.go:200-234 | a row whose pool address only one older marker carries belongs to that marker |
| `Agent.Agent.CollectPresent` | internal/ovpn/usage.go:137-144 | the ids and file names of the markers that the scan can read, added to those just booked, user by user |
| `Agent.Agent.ReadTotals` | internal/ovpn/usage.go:150-157 | totals come from persisted counters only, and one unreadable counter fails the sample |
| `Agent.Agent.PruneUntilFailure` | internal/ovpn/usage.go:159-163 | receipts are retired in turn until a prune fails |
| `Agent.Agent.RetireAfterPoll` | internal/ovpn/usage.go:119-163 | the second half of a poll as one step on counters, whatever part of the directory its scan can read |
| `Retirement.PollRetiresExactly` | internal/ovpn/usage.go:133-163 | a completed poll keeps a closed receipt exactly when its id is live or a marker of the user that the scan read carries it |
| `Retirement.UnreadableCounterStopsPoll` | internal/ovpn/usage.go:150-157 | while any counter file cannot be read, a poll retires no receipt of anyone |
| `Agent.Agent.LiveAddresses` | internal/hooks/purge.go:38-41 | the pool addresses of the snapshot |
| `Agent.Agent.RemoveStale` | internal/hooks/purge.go:49-74 | exactly the stale removable markers go, and their owners are affected |
| `Agent.Agent.PruneEach` | internal/hooks/purge.go:93-95 | every affected user is pruned, whatever fails |
| `Agent.Agent.PurgeStale` | internal/hooks/purge.go:25-106 | the markers and counters after a purge, whatever part of the directory its second scan can read |
| `Retirement.PurgeRemovesExactly` | internal/hooks/purge.go:36-74 | a purge removes exactly the visible, removable markers created longer ago than the lifetime whose pool address no row of the snapshot has, and nothing without a snapshot |
| `Retirement.PurgeRetiresExactly` | internal/hooks/purge.go:75-97 | a purge keeps a closed receipt exactly when it removed no marker of the user, could not list the directory again, or read a marker that carries the id |
| `AccountingRuns.ReceiptsOutliveMarkers` | internal/ovpn/usage.go:133-163 | in every run, a marker on disk whose session was ever closed still has its receipt, as long as the scans since then read that marker or found its id live |
| `AccountingRuns.ReplayAddsNothing` | internal/hooks/disconnect.go:60-96 | in every such state, a repeated disconnect changes neither total nor sessions |
| `HookCalls.StepIsCalls` | internal/ovpn/usage.go:60-163 | every step of the hooks, the poll and the purge leaves each user's counter file as the listed calls on it do |
| `HookHistory.RunFollowsHistory` | internal/store/counter.go:178-268 | over every run of those steps, the counter file follows the history of the calls they make |
| `HookHistory.HooksNeverReuse` | internal/hooks/disconnect.go:60-96 | in every run in which connects draw fresh ids, hooks find their own user's markers and scans read them, no session id is recorded again after its receipt was dropped |
| `HookHistory.RunsCountEachIdOnce` | internal/store/counter.go:198-228 | after every such run the total is the starting value, the banked deltas, and once per session id the maximum recorded up to its first closing |
| `HookHistory.EmptyNodeIsSetting` | internal/store/sessions.go:36-41 | from an empty node, while no user name has a dot, ids are distinct and every scan reads every marker, all that is asked of such a run holds for every user |
| `ScanFailures.UnreadMarkerIsCountedAgain` | internal/ovpn/usage.go:137-163 | a closed session whose marker a poll could not read is counted a second time, with all its bytes, by the disconnect that closes it again |
| `ScanFailures.UnreadMarkerExample` | internal/ovpn/usage.go:137-163 | there is such a poll and such a disconnect: 3 bytes become 6 |
| `Isolation.DifferentIsRejected` | internal/hooks/disconnect.go:115-137 | a marker is not matched by a connection that differs from its own in a known start, a known address or a known port |
| `Isolation.MatchedExactly` | internal/hooks/disconnect.go:115-137 | a disconnect is matched with the marker of a connect exactly when no start, address or port known on both sides differs |
| `Isolation.GenerationsAreIsolated` | internal/hooks/disconnect.go:60-93 | over all runs, a delayed disconnect of a provably different connection changes no entry of a generation, and removes its marker, under whatever name, exactly when it falls back to cleaning up names that include it |
| `Isolation.OthersSparedExactly` | internal/store/sessions.go:129-149 | any disconnect leaves the removable markers of other users on disk exactly when none is in reach by user name and pool address and none of theirs is under the key it closes |
| `Isolation.UndottedNamesAreSafe` | internal/store/sessions.go:129-149 | while no user name has a dot, no disconnect removes another user's marker |
| `Isolation.LongerNameIsRemoved` | internal/hooks/disconnect.go:61-67 | a marker of the user cn.rest at the same pool address that is there before is gone after a fallback of cn |
| `Isolation.ShorterNameIsRemoved` | internal/hooks/disconnect.go:61-67 | a marker of the user u is gone after a fallback of u.r when the shared pool address begins with r and a dot |
| `Isolation.PollAttribution` | internal/ovpn/usage.go:73-94 | a poll of a user with markers changes an entry only if its marker is the newest eligible one for some row, hence older than the snapshot |
| `Policy.UserDir.Load` | internal/store/store.go:46-124 | field-by-field precedence of the merged file over the legacy files, and every corrupt form |
| `PolicyLaws.PolicyReadsExactly` | internal/store/store.go:46-124 | a policy reads as a flag and a limit exactly when the merged file is absent or well formed and it, or where it is silent the legacy files, say so |
| `PolicyLaws.NameReadsExactly` | internal/store/store.go:46-124 | the name is that of the merged file, else of the legacy file |
| `PolicyLaws.LegacyFilesAreHonoured` | internal/store/store.go:96-121 | a user with only a legacy disabled file is disabled, one with only a legacy limit file has that limit, an unreadable one makes the policy unreadable |
| `Policy.UserDir.Update` | internal/store/state.go:27-99 | the files after each commit of an update, including the legacy removals in order |
| `Policy.AcceptedExactly` | internal/store/state.go:45-60 | an update goes through exactly when the policy and any name it must carry over can be read, and otherwise changes nothing |
| `Policy.UpdateIsExactAndAtomic` | internal/store/state.go:25-99 | at every stop, readers see wholly the old policy or the old one with exactly the given fields replaced |
| `PkiIndex.Parse` | internal/pki/ca.go:309-341 | the rows of an index, or refusal for a malformed row or a serial seen before |
| `PkiIndex.Write` | internal/pki/ca.go:343-350 | the text of rows |
| `PkiIndex.Append` | internal/pki/ca.go:150-175 | the text after an issuance, or refusal for an unusable index or a known serial |
| `PkiIndex.IssuedRowBelongs` | internal/pki/client.go:237-244 | a new row belongs to its own name and to no other |
| `PkiIndex.RenderThenParse` | internal/pki/ca.go:309-350 | parsing what is written for any rows an index can hold gives them back |
| `PkiIndex.IndexRoundTrip` | internal/pki/ca.go:309-350 | an accepted index keeps its rows when rewritten, and its serials are distinct numbers |
| `IndexLaws.IndexReadsExactly` | internal/pki/ca.go:309-341 | a text is an index exactly when every line that is not blank is a well-formed row and no serial repeats; its rows are these lines in order |
| `PkiIndex.AppendAddsOneRow` | internal/pki/ca.go:150-175 | on any accepted text, appending succeeds exactly for a fresh serial, and then the file parses to the old rows plus the new one exactly for a name without tab or line break |
| `Pki.Authority.ReadIndex` | internal/pki/ca.go:301-307 | the rows of the index on disk |
| `Pki.Authority.NextSerial` | internal/pki/ca.go:64-80 | the serial is returned only after its successor is on disk |
| `Pki.Authority.IssueCert` | internal/pki/ca.go:87-148 | serial file and index after an issuance stopped anywhere |
| `Pki.Authority.Mark` | internal/pki/client.go:205-212 | exactly the target's rows that are not revoked yet are marked, and whether any was found or changed |
| `Pki.Authority.MergeRevoked` | internal/pki/ca.go:217-244 | published entries first and unchanged, then the revoked rows they miss |
| `Pki.Authority.ChooseNumber` | internal/pki/ca.go:245-257 | the counter file's number, or one more than the published CRL's when that is not below it |
| `Pki.Authority.Generate` | internal/pki/ca.go:208-283 | number file and CRL after a regeneration stopped anywhere |
| `Pki.Authority.Revoke` | internal/pki/ca.go:178-205 | index, number file and CRL after a revocation by serial |
| `Pki.Authority.Vouch` | internal/pki/client.go:165-201 | every certificate file must be absent or an indexed certificate of this authority for this name |
| `Pki.Authority.Covers` | internal/pki/client.go:228-234 | striking listed serials off leaves nothing exactly when all are listed |
| `Pki.Authority.RevokeName` | internal/pki/client.go:149-235 | index, number file and CRL after a revocation by name stopped anywhere |
| `PkiRuns.NumberReadsBack` | internal/pki/ca.go:285-299 | printing a number in hexadecimal and reading it undo each other |
| `PkiRuns.SerialsStrictlyIncrease` | internal/pki/ca.go:64-80 | over any run stopped at any write, serials taken strictly increase |
| `IndexLaws.SerialsAreSuccessive` | internal/pki/ca.go:64-80 | the serial after one that was taken is the next, whether or not its issuance went through |
| `PkiRuns.IssuanceNeverCollides` | internal/pki/ca.go:87-175 | once the serial file is ahead of the index it stays ahead, no issuance is refused for a duplicate, and the index grows by exactly the rows of successful calls |
| `PkiRuns.MergeExact` | internal/pki/ca.go:217-244 | the merged list extends the published one and lists exactly the revoked rows besides |
| `PkiRuns.AddedEntriesAreRows` | internal/pki/ca.go:217-244 | every entry that a regeneration adds has the serial, the date and the reason code of a revoked row |
| `IndexLaws.NumbersAreSuccessive` | internal/pki/ca.go:245-277 | two regenerations in a row publish successive numbers, and the first CRL is number 1000 in hexadecimal |
| `IndexLaws.NumberIsLeast` | internal/pki/ca.go:245-257 | a new CRL gets the least number not below the number file and above the published CRL |
| `PkiRuns.GenerateExtends` | internal/pki/ca.go:208-283 | a regeneration changes the published CRL exactly when its write is reached, and then to a newer one |
| `PkiRuns.PublishedCrlsOnlyGrow` | internal/pki/ca.go:178-283 | over any run of issuing, revoking and regenerating, with anything happening to the other files, published CRLs only gain entries under strictly greater numbers (section 5.2.3 of RFC 5280) |
| `PkiRuns.NewerCoversMore` | internal/pki/ca.go:219-257 | a newer CRL lists every serial of an older one under a greater number |
| `NameRevocation.RevocationIsComplete` | internal/pki/client.go:149-235 | on success every row of the name is revoked and listed, other rows and earlier dates are unchanged, and the CRL lists the previous set and the revoked rows, nothing else |
| `NameRevocation.RevokedFilesAreListed` | internal/pki/client.go:165-235 | on success every certificate file that is there is of this name and authority, and the CRL has an entry for its serial |
| `NameRevocation.RevocationDates` | internal/pki/client.go:205-217 | newly revoked certificates enter the CRL under the date of the revocation, without a reason |
| `NameRevocation.SerialRevocationIsComplete` | internal/pki/ca.go:178-205 | a revocation by serial marks just that row and lists it |
| `NameRevocation.SecondRevocationKeepsIndex` | internal/pki/client.go:205-217 | a second revocation of the name leaves the index as it was |
| `NameRevocation.RevocationSucceedsExactly` | internal/pki/client.go:149-235 | a revocation that nothing stops succeeds exactly when signer, index, certificate files, CRL and CRL number are usable |
| `UserDelete.UserAdmin.SetDisabled` | internal/store/state.go:107-109 | the account after the disable step stopped after any commit |
| `UserDelete.UserAdmin.FindMaterial` | internal/ovpn/users.go:164-175 | whether certificate files are there, or that one cannot be examined |
| `UserDelete.UserAdmin.RemoveAll` | internal/store/users.go:92-112 | what is left of the folder when its removal succeeds or fails part of the way |
| `UserDelete.UserAdmin.Purge` | internal/ovpn/users.go:192-202 | revoke, remove four files, remove the folder, stopped anywhere |
| `UserDelete.UserAdmin.DeleteUser` | internal/ovpn/users.go:158-203 | the account, the authority's files and the answer after a deletion stopped anywhere |
| `DeletionRuns.DisableIsSafe` | internal/ovpn/users.go:187-189 | disabling, stopped anywhere, removes nothing and never re-enables |
| `DeletionRuns.AttemptIsOrdered` | internal/ovpn/users.go:158-203 | one attempt on a guarded user leaves everything in place and guarded, or every certificate of the name listed |
| `DeletionRuns.DeletionIsOrdered` | internal/ovpn/users.go:158-203 | over any run of attempts amid other work of the authority, nothing of the user is gone unless the CRL lists every indexed certificate of the name |
| `DeletionRuns.GoneCertificatesAreListed` | internal/ovpn/users.go:158-203 | over any run of attempts on any user, a certificate file that is gone was one of the name whose serial the CRL lists |
| `DeletionRuns.FoundExactly` | internal/ovpn/users.go:158-203 | the answer says exactly whether there was a certificate file, one that cannot be examined, or a disabled policy |
| `DeletionRuns.DeletionOutcome` | internal/ovpn/users.go:185-203 | a failure after the disable step leaves the user disabled or revoked; a success leaves nothing behind and every certificate listed |
| `DeletionRuns.OrderHoldsExactly` | internal/ovpn/users.go:158-203 | no attempt, and no run of attempts, removes anything of the user before the CRL lists the name's certificates, exactly when the user has material or is disabled, is covered already, has no folder or no readable policy, or the name is invalid |
| `DeletionRetries.RetriesComplete` | internal/ovpn/users.go:158-203 | after any run of stopped attempts, one that nothing stops removes all that is left, and every certificate is listed |
| `CertificateLifetime.IssuedCertificateEndsRevoked` | internal/ovpn/users.go:158-203 | an issued certificate is in the published CRL once its user's deletion completes, whatever stopped attempts and other work came between, and nothing of the user is left |
| `Lifecycle.BodiesNeverOverlap` | internal/store/store.go:152-172 | in every interleaving no two lifecycle bodies of one user run at once |
| `Lifecycle.RemovedGenerationNeverRuns` | internal/ovpn/lifecycle.go:19-67 | a call whose captured directory or certificate was removed while it waited never runs its body, even after the user is created again |
| `Lifecycle.BodyOwnsTheUser` | internal/ovpn/lifecycle.go:52-66 | from the recheck on, only the call's own body changes the user, but for a missing directory that a hook may create; the captured generation stays |
| `RateLimit.Limiter.TrimExpired` | internal/ratelimit/ratelimit.go:53-61 | expired calls are dropped from the front |
| `RateLimit.Limiter.ByLast` | internal/ratelimit/ratelimit.go:82-90 | every client once, ordered by its last call |
| `RateLimit.Limiter.PruneMap` | internal/ratelimit/ratelimit.go:71-96 | buckets trimmed, empty ones dropped, and the oldest tenth of a full map evicted |
| `RateLimit.Limiter.Evict` | internal/ratelimit/ratelimit.go:78-95 | exactly the excess goes, and no evicted client was seen later than one that stays |
| `RateLimit.Limiter.Prune` | internal/ratelimit/ratelimit.go:63-104 | when a prune is skipped, and what it does otherwise |
| `RateLimit.Limiter.Count` | internal/ratelimit/ratelimit.go:118-131 | one call against a bucket: acceptance, the new calls and the retry time |
| `RateLimit.Limiter.Allow` | internal/ratelimit/ratelimit.go:106-131 | prune, ask, prune after acceptance, and fewer than 10000 clients afterwards |
| `RateLimit.Limiter.AllowHeavy` | internal/ratelimit/ratelimit.go:133-157 | prune and ask the heavy limit |
| `RateLimit.Limiter.AllowGlobal` | internal/ratelimit/ratelimit.go:159-176 | prune and ask the global limit |
| `RateRuns.TrimIsWindow` | internal/ratelimit/ratelimit.go:53-61 | of an ordered history, lazy trimming keeps exactly the calls in the window |
| `RateRuns.AcceptedExactly` | internal/ratelimit/ratelimit.go:106-176 | in every run a call is accepted exactly when fewer than the limit of the calls accepted since the client's last eviction lie in the last minute |
| `RateRuns.AllowAnswersExactly` | internal/ratelimit/ratelimit.go:106-131 | the running limiter answers every client call as the history demands after the prune that led to its new state |
| `RateRuns.AskAnswersExactly` | internal/ratelimit/ratelimit.go:133-176 | so do the heavy and the global limit |
| `RateRuns.AllowExtendsRun` | internal/ratelimit/ratelimit.go:106-131 | a client call continues a run of the model |
| `RateRuns.LastIsLatestAsk` | internal/ratelimit/ratelimit.go:106-157 | in every run, the last call stored for a client is the time of its latest question, accepted or not |
| `RateRuns.LeastRecentAreEvicted` | internal/ratelimit/ratelimit.go:78-95 | in every run, a client evicted with calls in the window has asked, and no later than any client that stays |
| `RateRuns.RetryIsEnough` | internal/ratelimit/ratelimit.go:119-126 | a refused client that asks again when it is told to is accepted |
| `RateRuns.EarlyRetryIsRefused` | internal/ratelimit/ratelimit.go:119-126 | while it is not evicted, one that asks before it is told to is refused, unless it was told the least time, a second |
| `RateRuns.LimitsInNumbers` | internal/ratelimit/ratelimit.go:106-176 | 120 calls a minute per client, 60 heavy ones, 600 in all |
| `RateLimit.PruneInNumbers` | internal/ratelimit/ratelimit.go:63-104 | a prune ten seconds after the last one, or over 10000 clients, is carried out; a map that would keep 10000 keeps 9000 |
| `Pairing.Pairing.Enforce` | internal/pairing/pairing.go:27-114 | the lease file and the answer after a call |
| `Pairing.HandoverTakesTime` | internal/pairing/pairing.go:72-86 | grants to different panels lie at least 1742 seconds apart |
| `Pairing.HandoverBoundIsTight` | internal/pairing/pairing.go:72-86 | the bound is met |
| `Pairing.ExpiredLeaseIsGranted` | internal/pairing/pairing.go:78-83 | a foreign panel calling more than 1800 seconds after the owner's last grant is granted |
| `Pairing.AnonymousRefusedOncePaired` | internal/pairing/pairing.go:72-77 | no anonymous call is granted once a panel was |
| `Pairing.OwnerIsServed` | internal/pairing/pairing.go:72-100 | the panel granted last is granted every call whose lock and write work |
| `Pairing.UnpairedServesAnyone` | internal/pairing/pairing.go:66-100 | on an unpaired node the first panel is granted and takes the lease, and anonymous calls are granted until then |
| `Pairing.BrokenLeaseRefuses` | internal/pairing/pairing.go:45-66 | a lease file that cannot be read or parsed, or a missing lock, refuses every call |
| `ServerConf.ConfFile.FindMissing` | internal/ovpn/serverconf.go:230-249 | the required lines that no line of the file equals after trimming |
| `ServerConf.ConfFile.Tally` | internal/ovpn/serverconf.go:353-361 | per directive, the number of its lines and the last of them |
| `ServerConf.ConfFile.HooksAlreadyCurrent` | internal/ovpn/serverconf.go:353-368 | every desired line is there once, with its value |
| `ServerConf.ConfFile.KeepForeign` | internal/ovpn/serverconf.go:261-271 | the lines whose directive is not owned, in order |
| `ServerConf.ConfFile.RuntimeDirective` | internal/fsx/permissions.go:33-49 | the first line of two words or more that starts with the name gives the value, without its quotes; else the fallback |
| `ServerConf.ConfFile.Want` | internal/ovpn/serverconf.go:240-263 | the required and owned lines for this environment and this text, with the settings quoted as they are exported |
| `ServerConf.ConfFile.Ensure` | internal/ovpn/serverconf.go:210-280 | the file and the answer after a call, with every error return, for the lines wanted of the very text it repairs |
| `ConfRepair.KeyTrimmed` | internal/ovpn/serverconf.go:370-379 | trimming a line keeps its directive |
| `ConfSettles.IdentityKept` | internal/fsx/permissions.go:19-49 | the user and group read from a repaired file are those read before exactly when both are named, and are always named afterwards |
| `ConfSettles.RepairIsProjection` | internal/ovpn/serverconf.go:210-280 | for any environment and text, a second repair changes nothing exactly for a clean setup that finds a user and a group in the environment or the text |
| `ConfSettles.TwoRepairsSettle` | internal/ovpn/serverconf.go:210-280 | for any text, a third repair changes nothing exactly for a clean setup; for any other, every repair rewrites the file |
| `ConfSettles.QuotedEmptyUserTakesTwo` | internal/fsx/permissions.go:33-49 | a file that names an empty user in quotes is changed by two repairs and not by the third |
| `ConfSettles.RepairInstalls` | internal/ovpn/serverconf.go:250-280 | after a repair every owned directive is there exactly once as wanted, every required line is there, and the file names the same user and group |
| `ConfContents.RepairedHooks` | internal/ovpn/serverconf.go:250-253 | the one client-connect line runs the connect hook and the one client-disconnect line the disconnect hook |
| `ConfContents.RepairedSettings` | internal/ovpn/serverconf.go:325-344 | every exported setting has one setenv line that reads back as its value |
| `ConfContents.SettingReadsBack` | internal/ovpn/serverconf.go:346-351 | any value reads back from its quoted form |
| `ConfContents.RepairedIdentity` | internal/ovpn/serverconf.go:254-256 | one user and one group line, with the names found before |
| `ConfContents.IdentityReadsExactly` | internal/fsx/permissions.go:19-49 | the user and group are the environment's, else the second word of the first line that names one, else nobody and nogroup |
| `ConfContents.RepairedRequirements` | internal/ovpn/serverconf.go:77-93 | the eight required lines, as written |
| `ConfContents.EnsureSettles` | internal/ovpn/serverconf.go:210-280 | a failing call leaves the file, and a successful one on a clean named setup is followed by one that finds nothing to do |
| `ConfSettles.ForeignLinesKept` | internal/ovpn/serverconf.go:266-282 | every repair of a clean setup keeps the lines of other directives in order; only missing required lines and one blank line are added |

## Left out

- The HTTP server, the command line, logging, system information and the management socket; the outcome of a take-over is a parameter.
- X.509 signing, PEM and DER, JSON, SHA-256, easy-rsa, iptables and systemd are opaque. Limiter keys stand for clients, a CRL for its number, entries and issuer. The first CRL of a node may come from easy-rsa; the run lemmas start from any CRL.
- File permissions, symbolic links, temporary files and reader caches.
- Markerless sessions: a row polled while its user has no marker is booked under an id made from the row, and again under that id when its marker comes and goes. The counter laws are per id.
- A replay after a reset: a reset drops the receipt of a closed session whose marker may survive, so the accounting runs have no reset step. The counter laws include resets.
- Login limits under real concurrency: admission counts the rows of a status file that may lag behind.
- The display names, grouping and epoch texts that the usage poll reports.
- Creating users and building profiles: the files they write besides serials and the index.
- Isolation.PollAttribution: speaks of users who have markers; without any marker a row is booked under its own identity.
- Pki.Authority.IssueCert: the certificate and key files that an issuance then installs, and those that a renewal of the server certificate writes before it appends to the index, are not part of the model.
- UserDelete.UserAdmin.DeleteUser: the sessions that the node drops after disabling a user are not modelled.
- RateLimit.Limiter.Prune: the calls that record failed logins are left out; their buckets may change in any way between steps.
- Lifecycle.RemovedGenerationNeverRuns: the calls are a transition system rather than code, since they run in parallel; permission changes before the lock appear as calls that quit.
- Pairing.Pairing.Enforce: a panel id is assumed to survive the JSON file unchanged.
- ServerConf.ConfFile.Ensure: the text of a newly generated file is a parameter, and so is which runes beyond ASCII a quoted setting shows as they are. The file is not changed by anything else during a call.
- Changing the pushed DNS, the client template, installation and update scripts.
