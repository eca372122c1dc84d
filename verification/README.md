# Verification of the box's protocols and checks

A Dafny model of the parts of the telephone box, and of its Worker at the edge, that have to survive crashes, lost
replies and concurrent processes, and of a few algorithms with exact specifications around them. `dafny verify
dfyconfig.toml` checks everything.

## How it is built

The protocols are transition systems: a state, an event for every step that a crash or another process can separate from
the next, and `Exec` over a list of events. Safety is stated over every legal run. Beside each system stands the code
itself, as classes whose methods make the same reads, requests and durable writes in the same order; every durable write
of a method is an event, other processes act wherever the method waits, and each method proves that it leaves a legal run
behind on every path. So what is proved of runs holds of the code. The classes also count what their surroundings fail them
in (`faults`: a lost answer, a failed write, a lock that is held), and an error of that kind is reported only when one was
counted, so no method can give up for no reason.

- `AccountProtocol`, `AccountSteps`, `AccountSafety`, `AccountRuns`, `AccountWorld`, `AccountClient`: credentials, enrolment, uploads and recovery
  grants of one state directory shared by all processes of a box (`internal/account`). A reply is an event too, and what is
  stored must be what it carries. `UserCode` is the code a person compares at login.
- `RecoveryProtocol`, `RecoverySafety`, `RecoveryPaths`, `RecoveryRuns`, `RecoveryCommand`: the printed-sheet operation (`cmd/doorman/recovery.go`).
  The service's guards are those of `docs/CLOUD-BACKUP-PROTOCOL.md`; what it cannot see, a command must have established.
- `IncludeGraph`, `AccountBook`, `PassService`, `PassRules`, `PassList`: the account-book rules and the lobby pass book in service.
- `Retention`, `BackupDest`: which bundles a destination keeps.
- `EdgeQueue`, `EdgeSafety`, `EdgeTexts`, `EdgeWorker`: the Worker's one table, one SQL statement at a time.
- `SyncWaits`, `SyncLoop`, `Bell`: the sync loop's waits, its pace, and the bell that rings it.
- `Timeline`, `PlaylistText`, `Playlist`, `ImportBook`, `ZipDirectory`, `ZipWriting`: the audiobook importer's checks, the playlist it
  writes and the reader of that playlist.
- `Listening`: the time limit of an outside caller and the windows cut to fit it.
- `TextLines`, `CardText`, `CardFolding`, `QuotedPrintable`: unfolding and decoding contact cards.

## What it shows about the code

Most of what the code and its comments promise holds for all inputs. Where it does not, the model keeps the code's
behaviour, gives an input, and proves exactly when the promise is met.

- A recovery grant is not cleared by a login after an ordinary 401, so a signed-in box can keep a live grant of its
  previous enrolment (`GrantOutlivesEnrolment`): exactly when the last login was to another box than the stored grant names
  and no grant was saved since (`ForeignGrantExactlyWhen`). `AuthorizeRecovery` hands such a grant out; `recoveryPost` never
  sends it (`ForeignGrantIsNeverUsed`).
- The rule a recovery bundle must pass before its generation is confirmed lets through paths no directory can hold
  (`ValidatesWhatCannotBePlaced`), so a confirmed restore may never be staged. An interrupted operation can be finished
  exactly when its paths fit a directory, its bundle is still there, and its predecessor is still current or it is current
  itself (`CompletesExactlyWhen`). An operation saved before the service was asked, whose predecessor another box has
  replaced meanwhile, can be neither completed nor cancelled, ever (`StrandedReached`, `StrandedForever`, `NeitherWay`).
- The importer takes a segment that decodes to nothing, or to a fraction of a millisecond more than 45.120 s, and the
  reader then refuses the chapter (`ImportedButRefused`). A chapter that was imported plays exactly when each of its
  segments decodes to between one sample and 45.120 s and is not an empty file (`Import`).
- The copy of the last good pass book is never cleared, so a pass book that was removed returns to service when the daemon
  restarts onto a refused set (`RemovedBookReturns`); a restart keeps service exactly when that copy is the book in service
  (`RefusedRestart`, `RestartKeepsService`).
- Content that changes and changes back inside one reload is not seen by the stamp, and the wrong pass book stays in service
  (`RevertIsMissed`). A tick after the edits stop leaves the right one exactly when the last stamp is not of the final set, or
  what was decided on has the same pass book (`QuietTickIsRightWhen`).
- `unfold` reads the quoted-printable flag from the first physical line only, so soft breaks are undone exactly when that
  line already names the encoding (`SoftBreakNeedsTheHead`).
- The final UTF-8 decoder drops one leading byte order mark, so a quoted-printable text comes back exactly when it has
  none (`DecodesWhatWasEncoded`).
- `playWindow` relies on the window's file holding exactly the window's samples: only then does every piece advance and
  stay inside the window (`PiecesFitExactly`).
- A carrier's text whose id begins with `upload:` in any case also counts towards an upload quota, so a person may be held
  to fewer than thirty uploads (`FirstUploadRefused`; exactly when, `TextsCostAnUpload`), never to more (`AlwaysKept`).
- A `changed` signal left over from a pass re-times the next wait without the one-second minimum gap (`GapIsSkipped`;
  exactly when, `GapIsSkippedWhen`); the wait is then still what the bell's health asks for (`SleepsByTheBell`).

## What is assumed

- The environment: a rename replaces a file as a whole, the lock is exclusive and is let go by a crash, a SQL statement is
  atomic, the service never answers with a token the box
  has stored before or with an upload id used before, stores the first object put under an id, and completes a
  reservation only from an object of its declared size.
- Digests are collision-free: they are modelled as a constructor over the bytes.
- Clocks do not go back within a process. The Worker's handlers run a statement within three days of the clock reading
  they bind, and rows are acknowledged by a clock not ahead of the table's.
- An account book set handed to `Check` is keyed by the books' own, non-empty ids, each of which passed `Problems`.
- Parsers and codecs outside the model are parameters: `strconv.ParseFloat` and `%.6f`, FFmpeg's decoded length, UTF-8.

## Model

| member | source | states |
|---|---|---|
| AccountProtocol.ClassifyMeans | internal/account/store.go:234-243 | a 401 is a removal exactly with the code that says so, and otherwise a refusal of the credential; any 2xx accepts it |
| AccountSafety.AlwaysWellFormed | internal/account/upload.go:66-111 | after every event of every run, with crashes anywhere: a recorded upload has its ciphertext on disk with the recorded hash and size, a device ceremony commits to the stored transport key, a removed box holds no token, upload or grant, tokens have their capability's shape, and every declared reservation matches what was put for it |
| AccountSafety.OneContentPerReservation | internal/account/upload.go:133-198 | over any run, all PUTs for one reservation id carry the same bytes, and so does the stored object: a 412 means the object is already there |
| AccountSafety.DiscardedOnlyWhen | internal/account/upload.go:200-231 | in every run a reservation is discarded only after a 410, a 404 or a 409 size mismatch in reply to a request to complete that very reservation |
| AccountSafety.SelectsNewest | internal/account/client.go:265-299 | the token selected under the lock is the newest ever stored for its capability in this enrolment, after any rotations, lost replies, 401s and crashes |
| AccountSafety.ChainIsDistinct | internal/account/client.go:301-331 | no rotation chain holds a token twice, so every token has one place in it |
| AccountSafety.ChainIsIssued | internal/account/client.go:301-331 | every token ever stored for a capability is one the service gave in a reply of that run, to a rotation or with the enrolment |
| AccountSafety.NeverStepsBack | internal/account/sync.go:74-96 | within one enrolment a later selection is at the same place of the rotation chain or further; a token once passed is never selected again |
| AccountSafety.SuccessorRetiresPredecessors | internal/account/client.go:301-331 | once a successor is stored as pending, no later selection of that enrolment yields any token stored before it |
| AccountSafety.SuccessorSurvives | internal/account/sync.go:123-149 | a stored successor stays pending, becomes current, or is passed by a later successor, until a login or a recorded removal |
| AccountSafety.StaleSettlementChangesNothing | internal/account/sync.go:123-149 | one step: settling an answer to an outdated credential, or a removal of another enrolment, changes no part of the state |
| AccountRuns.OutdatedAnswerChangesNothing | internal/account/sync.go:45-72 | over any run: an answer to a credential selected at one event and settled at any later one changes nothing once the stored credential, or for a removal the stored enrolment, is another |
| AccountRuns.LateAnswerAfterRotation | internal/account/sync.go:123-149 | over any run: once a successor was stored in between, no late 200 or 401 for the credential selected before it changes anything |
| AccountSafety.SettlementSparesOthers | internal/account/sync.go:45-72 | one settlement leaves upload, grant, box, device, ciphertext and every selectable token as they are, unless it records the removal of the very box stored |
| AccountRuns.OthersSpareUploadAndGrant | internal/account/sync.go:123-149 | over any run without a login or a removal: settlements, rotations and dials leave an unfinished upload, its ciphertext and a grant exactly as their own commands left them |
| AccountRuns.LateRemovalSparesTheNewBox | internal/account/sync.go:98-121 | over any run: the answer that a box was removed, asked for before a login to another box and settled any number of events after it, changes nothing |
| AccountSafety.RemovedStaysSilent | internal/account/client.go:265-284 | once a removal is recorded, nothing is selected, recorded, stored or put to object storage, and the box stays removed, until a login completes |
| AccountRuns.ForeignGrantExactlyWhen | internal/account/client.go:233-253 | at the end of any run the store holds a grant of another box if and only if the enrolment stands, its last login was to another box than the one the grant then stored named, and no grant was saved since |
| AccountRuns.GrantOutlivesEnrolment | internal/account/client.go:233-253 | it happens: a grant approved the ordinary way (secret, code, scope), an ordinary 401 and a login to another box end with a signed-in box that holds the old box's grant |
| AccountRuns.ForeignGrantIsNeverUsed | internal/account/recovery.go:157-176 | in every run, whenever a grant is used it is not one of another box |
| AccountProtocol.PrefixLegal | internal/account/store.go:165-207 | every prefix of a legal run is legal, so each crash point is covered by the results about runs |
| AccountWorld.World.Save | internal/account/store.go:165-207 | the state file is the old one or the new one whatever fails, and the new one on success |
| AccountWorld.World.Open | internal/account/store.go:80-121 | opening waits for other processes and ends either with the lock or without touching anything |
| AccountClient.AuthenticatedVia | internal/account/client.go:265-299 | under the lock only tokens, sign-in and removal change; success leaves the selected token as the current one alone; a removed box, and exactly a box without a usable token, is refused before anything is sent; any other error is a failure |
| AccountClient.MarkRemovedDurably | internal/account/store.go:244-264 | the removal is saved as a whole or not at all, and the ciphertext goes only after it |
| AccountClient.Rotate | internal/account/client.go:301-331 | success means a 200 came in this very call and exactly the token it carried is stored as pending; with nothing failing it succeeds for every such reply and passes any other on; every path leaves a legal run and lets the lock go |
| AccountClient.SyncCredential | internal/account/sync.go:74-96 | the credential returned is the stored one read under the lock; a busy store, a removed box and a missing login are told apart |
| AccountClient.SettleRemoved | internal/account/sync.go:98-121 | applied means the very box that was answered is recorded removed; not applied means another box is stored |
| AccountClient.SettleSync | internal/account/sync.go:123-149 | compare-and-set: what is stored is the settlement of what was found under the lock, and the refused or accepted credential is not left as it was |
| AccountClient.Synchronise | internal/account/sync.go:28-72 | apart from the lock it writes nothing but the settlement of its own answer, and passes the reply on as it is, after settling it: a refused credential, or an accepted successor, is not left as it was; a caller is told of a removal only when the enrolment asked about is stored as removed, and of being superseded only when another one is stored |
| AccountClient.DialBell | internal/account/bell.go:45-84 | a dial writes nothing but a removal of the stored box, and reports one only when it is recorded; the bell is up exactly for a 101, and a 401 or 403 is told apart from any other reply |
| AccountClient.Login | internal/account/client.go:140-257 | success leaves the box signed in with no upload, as the box and with the tokens of the reply this very call was given, over any interleaving and any crash in between |
| AccountClient.LoginLocked | internal/account/client.go:140-257 | exactly an enrolled box is refused at once; a ceremony with time left is gone on with, its transport key unchanged; success stores the enrolment the reply carried, for the very ceremony, keeping only an older grant |
| AccountClient.StartCeremony | internal/account/client.go:153-201 | the transport key is durable before the device code, and the stored code commits to it; with nothing failing it succeeds for every reply that does |
| AccountClient.PollOnce | internal/account/client.go:207-257 | one poll goes on with the same ceremony for a 202, and for a 429 with an interval five seconds longer or as long as asked; a 410 ends the ceremony; a 200 with a box and two tokens enrols with exactly these; any other reply is passed on |
| AccountClient.Upload | internal/account/upload.go:44-84 | success means the completed object is exactly the data; exactly what is empty or over 200,000,000 bytes is refused as such |
| AccountClient.RecordNew | internal/account/upload.go:66-84 | the ciphertext is durable before the record that names its hash and size |
| AccountClient.ReadCiphertext | internal/account/upload.go:113-131 | what is read is the stored ciphertext and matches the record, and what matches is read unless reading fails |
| AccountClient.FinishUpload | internal/account/upload.go:133-198 | the bytes of the recorded digest are put exactly when the service answers that it has the reservation but not its object and time is left, whichever fresh or recorded reservation it is; expired exactly says so; a PUT that finds the object there is as good as one; success completes the recorded upload and forgets it, with the object of the recorded digest stored |
| AccountClient.CompleteUpload | internal/account/upload.go:200-231 | a completed bundle is the stored object with the recorded hash; after a refusal the reservation is discarded exactly for a 410, a 404 or a 409 size mismatch to this very completion, and is otherwise exactly as it was |
| AccountClient.ForgetUpload | internal/account/upload.go:225-231 | the record goes before the file, so no record names a missing ciphertext |
| AccountClient.AuthorizeRecovery | internal/account/recovery.go:59-155 | success means a signed-in box holds the grant whose scope is returned |
| AccountClient.AuthorizeLocked | internal/account/recovery.go:59-155 | a live grant is handed out as it is and nothing is sent; a fresh one is for the stored box; exactly a removed box, and every signed-out one, is refused |
| AccountClient.PollGrant | internal/account/recovery.go:126-155 | one poll waits on exactly for a 202; a scope is stored and returned exactly when it names this box and ends within 31 minutes; any other reply is passed on |
| AccountClient.RequestGrant | internal/account/recovery.go:79-125 | success leaves a stored request: the one stored before while it lasts, or one whose code commits to the stored transport key, under the secret saved before it was asked for |
| AccountClient.RecoveryPost | internal/account/recovery.go:157-204 | a grant of another enrolment, or one that has expired, is never sent, and success speaks of the stored box |
| AccountClient.SendGrant | internal/account/recovery.go:177-204 | the grant is used for a 200, dropped exactly for a 401 that is no removal, and any other reply is passed on |
| UserCode.UserCodeOf | internal/account/client.go:122-131 | the twelve characters spell the digest's first sixty bits, five at a time |
| UserCode.CodeIsSixtyBits | internal/account/client.go:122-131 | two digests have one code exactly when their first sixty bits agree |
| RecoverySafety.AlwaysSafe | cmd/doorman/recovery.go:127-194 | in every run: what the service holds of this box opens with a sheet that was saved first; a pending generation still has its operation on disk, with a bundle found safe; a current one was confirmed here; nothing is both cancelled and confirmed; a published root is exactly its bundle |
| RecoveryRuns.OldPhraseStaysLive | cmd/doorman/recovery.go:127-194 | over any run without a confirmation and without other boxes, the current generation and the envelope the service holds for it stay exactly as they were, whatever is prepared and cancelled |
| RecoveryRuns.EveryConfirmationWasProven | cmd/doorman/recovery.go:297-341 | in every run the commands leave, each confirmation was asked for by a command that had fetched the recorded envelope and read the recorded bundle, with its own sheet's phrase opening the one and the identity in it the other, and every item safe; and it makes that generation current. The service cannot check any of this |
| RecoveryRuns.CurrentWasProven | cmd/doorman/recovery.go:297-365 | whatever is or ever was current through this box had its own sheet's phrase proven at the event that made it so |
| RecoveryRuns.CompletesExactlyWhen | docs/CLOUD-BACKUP-PROTOCOL.md:193-206 | wherever a run stopped with an operation on disk, one more command that takes the steps of a confirmation in their order (list, prepare unless current, fetch, read, confirm, publish, receipt, remove) can finish it (current, receipt left, root exactly the bundle's items) if and only if the generation is current already, or is not gone and its predecessor is still current; the recorded bundle is still on disk; and a directory can hold the bundle's paths |
| RecoveryRuns.CancelsExactlyWhen | docs/CLOUD-BACKUP-PROTOCOL.md:201-206 | from the end of any run, one command cancels and lets go exactly when the service holds the generation unconfirmed, or an earlier cancellation went through without its answer |
| RecoveryRuns.StrandedForever | docs/CLOUD-BACKUP-PROTOCOL.md:193-206 | over any run: an operation saved here but unknown to the service, whose predecessor is past, stays so whatever happens after |
| RecoveryRuns.NeitherWay | cmd/doorman/recovery.go:652-669 | such an operation can be neither completed nor cancelled |
| RecoveryRuns.StrandedReached | cmd/doorman/recovery.go:142-194 | it happens: the operation is saved, and another box sets recovery up before the service is asked |
| RecoveryRuns.EveryRootIsWhole | cmd/doorman/recovery.go:366-411 | in every run, a root on disk is file for file the bundle of a confirmed operation that published it, also after that operation is gone |
| RecoveryCommand.EnsurePrepared | cmd/doorman/recovery.go:127-141 | success means the service holds the generation with this very envelope; the refusal for another house comes exactly when the listed account or house is not the operation's, and nothing is asked of the service then |
| RecoveryCommand.PrepareOperation | cmd/doorman/recovery.go:142-194 | a saved operation is resumed, never replaced; a new one names the account and house of a reply listed since the command began, is durable before the service is asked, and on success the service holds it; it is refused exactly when it replaces nothing and that reply lists material |
| RecoveryCommand.MakeDurable | cmd/doorman/recovery.go:177-189 | sheet, ciphertext and operation are written in that order, each a legal step |
| RecoveryCommand.PrepareCloudRestore | cmd/doorman/recovery.go:236-285 | success on a new operation means: a reply listed the replaced generation as current; the phrase opened that generation's envelope, for its recipient, and the identity it holds opens the new bundle, whose items are safe; account and house are a reply's; without all that, or a failure, it does not fail, save that exactly a saved operation for another root and a root already there are refused |
| RecoveryCommand.VerifyFiles | cmd/doorman/recovery.go:412-458 | accepts exactly the tree that holds the bundle's items and nothing else, each with its content and its mode, 0600 when it names none |
| RecoveryCommand.ValidatesDistinctPaths | cmd/doorman/recovery.go:286-296 | a bundle that names one path twice is refused |
| RecoveryPaths.SafeMeans | cmd/doorman/recovery.go:286-296 | a path is let through exactly when it is absolute, made of names that are neither empty nor dots, none of them but the last is `account`, it does not end in `backup/identity.key` and does not lie in the box's own account directory |
| RecoveryPaths.ItemsMean | cmd/doorman/recovery.go:286-296 | a bundle is let through exactly when every path of it is such a one and none is named twice |
| RecoveryCommand.ValidatesWhatCannotBePlaced | cmd/doorman/recovery.go:286-296 | the same rule lets through an item below another, and the root directory itself, which no directory can hold |
| RecoveryCommand.StageRecovery | cmd/doorman/recovery.go:366-411 | a root appears whole by one rename; an existing one is verified and never written; it succeeds only for paths a directory can hold, and then unless extraction or a write fails |
| RecoveryCommand.OpenOperation | cmd/doorman/recovery.go:307-336 | the checks before a confirmation pass exactly when the service sent the operation's own envelope, the phrase is its sheet's and the bundle on disk is the recorded one |
| RecoveryCommand.ConfirmOperation | cmd/doorman/recovery.go:297-365 | success: the generation was confirmed, with its own sheet's phrase, the receipt is left and the operation gone, and the inspection root equals the bundle's items; no path asks for a confirmation before the fetched envelope and the bundle read were opened; it fails only for want of an operation, for a failure, or for another house, envelope, phrase or bundle than the operation's |
| RecoveryCommand.CancelOperation | cmd/doorman/recovery.go:652-669 | a cancelled generation is gone from the service for good before its operation is removed here, also when it had been cancelled before; it fails only for want of an operation or for a failure |
| IncludeGraph.RankedIsAcyclic | internal/accountbook/accountbook.go:341-374 | depths that fall along every include leave no cycle |
| IncludeGraph.RankIsLongestChain | internal/accountbook/accountbook.go:345-379 | the depth computed for a book is the length of its longest include chain, attained and never exceeded |
| AccountBook.Walk.Visit | internal/accountbook/accountbook.go:341-368 | the depth-first step terminates on every graph and keeps: active books are the path, finished ones are ranked, a named cycle is real |
| AccountBook.WalkAll | internal/accountbook/accountbook.go:369-374 | either a book on a cycle, or the rank of every book |
| AccountBook.PassProblems | internal/accountbook/accountbook.go:308-318 | reports every pass book but the first in order, each against that one, and so nothing exactly when the set has one at most |
| AccountBook.IncludeProblems | internal/accountbook/accountbook.go:319-335 | exactly the includes that are unheld or name a pass book |
| AccountBook.GraphProblems | internal/accountbook/accountbook.go:341-381 | one cycle through a book that lies on it, or exactly the books whose longest chain is over four |
| AccountBook.Check | internal/accountbook/accountbook.go:294-381 | nothing is reported exactly when the set is acceptable: at most 200 books, one pass book, every include resolved, no cycle, no chain over four; and each kind of problem is reported exactly when it is there |
| AccountBook.Holders | internal/accountbook/accountbook.go:402-417 | the index has exactly the listed numbers, each with the first contact that lists it |
| PassService.ServesOnlyAccepted | cmd/doorman/lobbypass.go:162-230 | over any edits, reloads and restarts, what is served is nothing or the pass book of an accepted set, and the kept copy is the one saved last |
| PassService.RefusedChangesNothing | cmd/doorman/lobbypass.go:210-230 | any number of refused reloads serve what was served before |
| PassService.RefusedRestart | cmd/doorman/lobbypass.go:210-230 | a restart onto a refused set serves the copy saved last, and so keeps service exactly when that was in service |
| PassService.RestartKeepsService | cmd/doorman/lobbypass.go:162-251 | for every history: a restart onto a refused set keeps service exactly when the last decisive event was an accepted pass book that was saved or already the copy, nothing in service with nothing ever saved, or a restart that could read the copy |
| PassService.RemovedBookReturns | cmd/doorman/lobbypass.go:199-251 | a run in which a removed pass book comes back at a restart |
| PassList.PassList.Reload | cmd/doorman/lobbypass.go:138-195 | one reload is one decision on inputs read in order after it began, and nothing else changes; an accepted pass book is kept as the copy unless writing it fails |
| PassList.PassList.Restart | cmd/doorman/lobbypass.go:77-86 | the same for a new process on the same disk, which reads the copy unless reading it fails |
| PassList.PassList.TakeIn | cmd/doorman/lobbypass.go:162-208 | an accepted set's pass book goes in service and is copied, or service ends and the copy stays |
| PassList.PassList.Accept | cmd/doorman/lobbypass.go:197-208 | what is served is indexed by its own contacts |
| PassList.PassList.Tick | cmd/doorman/lobbypass.go:253-272 | once edits have stopped, a tick reconsiders the set exactly when the last stamp is not of it, and what was decided on last is then the final set unless the stamp was of it and its reload decided on another; if nothing edited away came back, an accepted final set is what is served |
| PassList.QuietTickIsRightWhen | cmd/doorman/lobbypass.go:253-272 | a tick leaves an accepted final set's pass book in service if and only if the last stamp is not of that set or what is served already is its book, which after an accepted decision means that the decision had the same one; always when nothing came back |
| PassList.RevertIsMissed | cmd/doorman/lobbypass.go:138-157 | content that comes back inside one reload: with both sets accepted and different pass books, the wrong book stays in service through any number of ticks |
| PassRules.AccountBooks | internal/configcheck/configcheck.go:74-105 | the files are accepted exactly when each is a book under the name of its own id and the set is acceptable |
| PassRules.SharedRulesAreSound | internal/configcheck/configcheck.go:74-105 | rules that ask this of the books accept at most one pass book, whatever else they ask of an inventory |
| Retention.HistoryIndependent | internal/backup/dest.go:116-170 | if what S keeps is in T and T in S, then T keeps exactly what S keeps |
| Retention.KeptMeans | internal/backup/dest.go:116-170 | what is kept, by the calendar: a bundle that no later one follows before the next midnight and that fewer than `daily` such are newer than, or that none follows before the next Monday midnight and fewer than `weekly` such are newer than |
| Retention.SameWeek | internal/backup/dest.go:144-152 | two times share a week exactly when no Monday midnight lies between them |
| Retention.NightlyEqualsOnce | internal/backup/dest.go:172-203 | over any run of deliveries at any times, with any failed deletions, what is held keeps exactly what everything ever delivered would, and all of that is still there |
| Retention.KeptCount | internal/backup/dest.go:116-170 | at most daily plus weekly bundles are kept |
| BackupDest.MarkNewest | internal/backup/dest.go:121-162 | the newest-first pass marks exactly the newest of each of the newest `limit` days or weeks |
| BackupDest.Keep | internal/backup/dest.go:121-170 | keep and prune split exactly the host's bundles by that rule, newest first, and name nothing else |
| BackupDest.Latest | internal/backup/dest.go:103-114 | the newest bundle of any host, the first listed of several as new, or none when there is none |
| BackupDest.Destination.DeliverTo | internal/backup/dest.go:172-203 | every host's retention survives any failure, also of a put that stored and still failed; other hosts' bundles are untouched; a destination that cannot be read, or did not take the bundle, is neither listed nor pruned; an error is reported exactly when an operation failed, and a delivery without one leaves exactly the keep set |
| BackupDest.Deliver | internal/backup/dest.go:172-203 | the same at every destination, other hosts' bundles included, whatever happens at the others; what is reported delivered was stored |
| EdgeSafety.AlwaysKept | edge/src/contact-upload.ts:131-152 | over every interleaving of statements: any one-hour window holds at most thirty accepted uploads of a person, at most thirty are unacknowledged, an upload is acknowledged exactly when its result is recorded, and pruned rows are out of reach of any window to come |
| EdgeSafety.NeverOverThirty | edge/src/contact-upload.ts:131-145 | over every interleaving: no thirty-one accepted uploads of one person in one house lie within an hour of each other, and no thirty-one wait |
| EdgeSafety.WindowIsRecent | edge/src/contact-upload.ts:137-145 | the rows counted by an insertion bound the window it joins, even when it runs out of clock order |
| EdgeTexts.DecidedByOwnRows | edge/src/contact-upload.ts:131-152 | a new upload is stored exactly when fewer than thirty rows of its own sender in its own house, under an id that reads like an upload's, are of the last hour, and fewer than thirty are unacknowledged |
| EdgeTexts.AcceptedUnderThirty | edge/src/contact-upload.ts:131-152 | whatever rows others have, a person with fewer than thirty in the house is not refused |
| EdgeTexts.OthersDoNotDecide | edge/src/contact-upload.ts:131-152 | adding or removing rows of other senders or other houses never changes the decision |
| EdgeTexts.StoredAsSent | edge/src/contact-upload.ts:131-145 | a row already there stays as it is, a text is always stored, and what is stored is what was sent; no other row changes |
| EdgeTexts.RefusedWhen | edge/src/contact-upload.ts:131-152 | a new upload is refused exactly when a sender's uploads and the texts that count like uploads reach thirty together, in the hour or unacknowledged |
| EdgeTexts.TextsCostAnUpload | edge/src/contact-upload.ts:131-152 | an upload is refused that would be accepted without those texts exactly when the uploads alone are under both quotas and the texts reach one of them |
| EdgeTexts.FirstUploadRefused | edge/src/contact-upload.ts:131-152 | it happens, for any house, sender and upload id: after thirty such texts within the hour the first upload is refused |
| EdgeSafety.RowsOnlyAdvance | edge/src/index.ts:200-224 | one statement: nothing changes what was inserted or a recorded acknowledgement, and an acknowledgement sets the row's only once, with its own time; a row leaves exactly when its house is pruned more than a week after it was acknowledged |
| EdgeSafety.QueuedUntilAcked | edge/src/index.ts:200-224 | an unacknowledged row stays exactly as inserted until an acknowledgement names it |
| EdgeSafety.AckedIsFinal | edge/src/index.ts:207-222 | over any run: an acknowledged row and its result stay exactly as they are until its house is pruned more than a week later |
| EdgeWorker.UploadContact | edge/src/contact-upload.ts:124-156 | 202 only for a stored row with this fingerprint, 409 only for one with another, also when two uploads race past the first lookup; 429 only for none, after this very insertion found a quota reached or had its row acknowledged and pruned since; a failure only for a handler held up over three days |
| EdgeWorker.Status | edge/src/contact-upload.ts:79-96 | not found exactly for rows that are not uploads with this key; a result is the recorded one; queued means unacknowledged after the whole wait |
| EdgeWorker.Callback | edge/src/index.ts:140-162 | a row is stored under the id, unless the handler was held up over three days; the attachments are fetched only where none was |
| EdgeWorker.Ack | edge/src/index.ts:200-224 | success runs, for each id, the update for an upload with the first result that names it, or else the update for a text, and last of all the prune; exactly results that are too many or for other ids are refused, before any statement |
| EdgeWorker.Pull | edge/src/index.ts:183-198 | the ten oldest waiting rows, in order |
| SyncWaits.NoLostRing | cmd/doorman/sync.go:252-335 | in every log of the loop, between a ring and any later sleep a pass began for a ring |
| SyncWaits.BurstIsOnePass | cmd/doorman/sync.go:252-259 | rings after a pass began and before the next ring is taken, however many, are answered by exactly one pass before the loop next sleeps |
| SyncWaits.SleepsByTheBell | cmd/doorman/sync.go:278-335 | over every log: when the loop sleeps after a healthy pass, its timer is, by the bell's health as signalled (down: the ordinary interval), between the interval from that pass's start and that or the shortest gap from its end, plus what it took to set the timer; after a failed pass, within the backoff of the failures in a row |
| SyncWaits.PassesKeepApart | cmd/doorman/sync.go:278-335 | over every log: a pass begun by a timer comes no sooner than the interval from the healthy pass before it, or half the backoff from the end of the failed one and the service's own wait |
| SyncWaits.TimedAgainForASignal | cmd/doorman/sync.go:324-331 | over every log: a second timer for one wait is set only for a signal of the bell taken since the first, and only after a healthy pass |
| SyncWaits.NothingAfterRemoval | cmd/doorman/sync.go:284-292 | over every log: once a pass found the box removed, no other begins |
| SyncWaits.GapIsSkippedWhen | cmd/doorman/sync.go:313-333 | over every log: a timer after a healthy pass ends within a second of the pass's end exactly when it is a second one, set for a signal, the interval has less than a second left by the pass's end, and the signal is taken within that second |
| SyncWaits.GapIsSkipped | cmd/doorman/sync.go:313-333 | it happens: a log of the loop in which the next pass begins as a healthy one ends |
| SyncWaits.BackoffGrows | cmd/doorman/sync_pace.go:31-52 | the full delay never falls, runs from five seconds to five minutes, and is at its maximum from the seventh failure on |
| SyncLoop.Sync.RingNow | cmd/doorman/sync.go:252-259 | a ring never blocks and always leaves exactly one waiting |
| SyncLoop.Sync.NextWait | cmd/doorman/sync_pace.go:31-52 | the interval less the pass, at least a second, after success; between half and all of the backoff, or the service's own wait, after failure |
| SyncLoop.Sync.Select | cmd/doorman/sync.go:315-332 | the wait on whichever channels are listened to: it sleeps, and logs it, exactly when none of those is ready; what it logs is legal when it listens to rings and to the bell and the timer is the one set for the bell as told |
| SyncLoop.Sync.Await | cmd/doorman/sync.go:313-333 | the wait ends by a due timer or for a ring it took, and a signal after a healthy pass has it timed again from that pass's start; it leaves a legal log |
| SyncLoop.Sync.Loop | cmd/doorman/sync.go:278-335 | every run of the loop leaves a legal log, so all of that holds of it: each pass's outcome and each timer set are in it, each timer fits the outcome and the failures in a row, each ring taken or timer gone off is answered by the very next pass, none follows a removal, nothing but rings follows the context's end, and the bell stores and signals its health between any two steps; it ends as the last pass came out, and one pass alone sets no timer |
| Bell.OneRingEach | internal/bell/bell.go:260-275 | in every log of the bell, transitions up and their rings are one to one, and so are sync signals and theirs, each ring right after what it is for |
| Bell.NotUntilItChanges | internal/bell/bell.go:127-139 | over every log: after a refused credential there is no dial until a look at the store has shown another credential; a removal ends it |
| Bell.LooksApart | internal/bell/bell.go:282-299 | over every log: before each such look it waits half a minute |
| Bell.WaitsBetween | internal/bell/bell.go:141-173 | over every log: between a failed dial or a lost connection and the next dial lies one whole wait, of half to all of a second doubled for every failure, five minutes at most, or what the service asked for if that is longer |
| Bell.FailuresAre | internal/bell/bell.go:141-173 | the failures counted start again exactly after a connection that stayed up for a minute, or another credential |
| Bell.WaitsGrow | internal/bell/bell.go:197-211 | waits never fall and end at five minutes; cutting the shift at thirty changes nothing |
| Bell.Client.SetHealthy | internal/bell/bell.go:301-309 | only a change is reported, and nothing else changes |
| Bell.Client.Session | internal/bell/bell.go:213-280 | a session ends with the loss of its connection and keeps the log so: whatever frames come, each is taken as below |
| Bell.Client.Take | internal/bell/bell.go:255-275 | the first pong, and only it, is reported up and rung for, every sync signal is rung for, anything else is ignored |
| Bell.Client.Backoff | internal/bell/bell.go:197-211 | between half and all of the full wait, or the service's own |
| Bell.Client.Run | internal/bell/bell.go:108-174 | the bell leaves a log of which all of that holds, is never left healthy, ends as gone exactly when its last act is the ring for the removal, and otherwise only with the context |
| ZipDirectory.BoundedZipDirectory | internal/books/audiobook.go:228-279 | accepts exactly the files with one end signature in the tail, in a record ending at the end of file, whose directory is exactly the stated number of headers laid end to end up to it, within the limits |
| ZipDirectory.AcceptedIsBounded | internal/books/audiobook.go:228-231 | in an accepted file a walk that ignores the stated count finds exactly that many headers, at most 4096 in eight mebibytes |
| ZipWriting.WrittenIsAccepted | internal/books/audiobook.go:228-279 | an archive written as the format asks, with any names, extra fields, comments and claims in its record, is accepted exactly when the record claims one disk and the members there are, nothing else in its last 65557 bytes looks like an end record, and it has three to 4096 members and at most eight mebibytes of directory |
| Timeline.CheckTimelines | internal/books/audiobook.go:118-142 | accepts exactly the archives whose chapters, segments and totals hold and whose every file is used once |
| Timeline.ChapterMeans | internal/books/audiobook.go:118-142 | a chapter holds exactly when its segments are audio files of the archive, of up to 45 seconds, each beginning within a millisecond of where the one before ended, the last ending within one of its length, and all within 120 of it together |
| Timeline.BoundaryDrift | internal/books/audiobook.go:125-137 | the start of segment i is within i + 1 milliseconds of the durations before it; the chapter's length within 120 ms, and within one per segment |
| Timeline.NoGap | internal/books/audiobook.go:125-137 | every instant of an accepted chapter is within a millisecond of a segment |
| Timeline.EveryMemberUsedOnce | internal/books/audiobook.go:118-142 | the segments are exactly the archive's members besides manifest and checksums, each once |
| PlaylistText.LinesOfTerminated | internal/books/audiobook.go:281-294 | splitting a text of terminated lines gives back the lines |
| PlaylistText.SegmentNamesMatch | internal/books/audiobook.go:180-200 | a numbered name matches the reader's pattern exactly below a million |
| PlaylistText.NamesAreNumbered | internal/books/audiobook.go:28 | and nothing but a numbered name matches it |
| Playlist.EntryMeans | internal/books/audiobook.go:294-310 | an entry is accepted exactly when it names a numbered file that is there, not empty and at most a mebibyte, and a positive length of at most 45.120 seconds |
| Playlist.ChapterReady | internal/books/audiobook.go:281-316 | accepts exactly the playlists whose lines, files and values hold and whose sum is within the tolerance |
| Playlist.Importer.WriteChapter | internal/books/audiobook.go:174-211 | success adds exactly the numbered segments and the playlist of their decoded lengths; failure means some segment does not decode to what the manifest says |
| ImportBook.RoundingAccumulates | internal/books/audiobook.go:200-210 | six-decimal rounding adds at most half a microsecond per segment |
| ImportBook.StoredIsReady | internal/books/audiobook.go:281-316 | a stored chapter's playlist is accepted exactly when every segment is playable |
| ImportBook.ImportedButRefused | internal/books/audiobook.go:196-199 | two segments the importer takes and the reader does not |
| ImportBook.WriteBook | internal/books/audiobook.go:174-211 | every chapter's files are still there at the end; failure means some segment does not decode to what the manifest says |
| ImportBook.Import | internal/books/audiobook.go:118-211 | after an import each chapter is ready exactly when all its segments are playable; an import fails only for a bad timeline or such a segment |
| ImportBook.PrintedValuesReadBack | internal/books/audiobook.go:200-200 | a fixed-point reader gets back every printed duration |
| Listening.NothingAfterTheEnd | internal/books/listen.go:65-79 | in every call, no command follows a check that read the clock at or past the end |
| Listening.EndsByTheNextWord | internal/books/listen.go:216-264 | in every call, each piece, whole window and wait was measured against a reading of the clock of its own: from that reading it ends by the limit's next word or within a tenth of a second, and less than a tenth of a second past the end at most; and a piece that leaves some of its window, or a wait under ten seconds, is cut no shorter than by a sample, or a millisecond, or the tenth of a second |
| Listening.OneWarning | internal/books/listen.go:65-79 | the warning is given once at most |
| Listening.PiecesFitExactly | internal/books/listen.go:227-255 | every piece advances and stays in the window, for all offsets and clocks, exactly when the file holds the window |
| Listening.Call.Check | internal/books/listen.go:65-79 | past the end it refuses; the warning is spoken once, when due, and before the command it was due for |
| Listening.Call.Do | internal/books/agi.go:51-98 | a command is sent only after a check let it through, and a timed one only as long as its look found time for |
| Listening.Call.Wait | internal/books/agi.go:118-128 | at most ten seconds; and by the look it logs, never past the limit's next word, or a tenth of a second |
| Listening.Call.PlayWindow | internal/books/listen.go:216-264 | what is streamed tiles a prefix of the window without gap or overlap, each piece, and a window played whole, within the time its look found or a tenth of a second; a window that fits is not cut; the position is in the last piece; without error or key the whole window was played; the loop ends; an error is the end of the time or a failure |
| Listening.Call.ListenIn | internal/books/listen.go:123-160 | for the whole call, whatever the menus do: nothing after the end but the goodbye, one warning at most, nothing timed runs past the limit's next word, and an error is a failure |
| CardText.Unfold | edge/src/contacts.ts:79-109 | the piecewise loop computes what the simple form does that keeps one string and tests its own end; more than 100000 lines are refused |
| CardText.IsQPMeans | edge/src/contacts.ts:100-105 | a physical line counts as quoted-printable exactly when it names the encoding, in either case, before any colon |
| CardFolding.UnfoldsToLogical | edge/src/contacts.ts:79-109 | any document of properly written lines, folded, softly broken and ended in any mixture of ways, unfolds to its logical lines |
| CardFolding.PlainFoldIsProper | edge/src/contacts.ts:98-104 | for a line that is not quoted-printable any folding at all is proper |
| CardFolding.SoftBreaksAreProper | edge/src/contacts.ts:93-97 | a quoted-printable line may be softly broken anywhere once its first physical line says so |
| CardFolding.SoftBreakNeedsTheHead | edge/src/contacts.ts:93-105 | over any number of physical lines, folded and softly broken, a logical line comes back exactly when its first physical line names the encoding or none of its breaks is soft |
| QuotedPrintable.DecodeQP | edge/src/contacts.ts:47-62 | decodes the bytes of the one reading of the value, and refuses exactly the values without a reading |
| QuotedPrintable.HexValueIs | edge/src/contacts.ts:47-62 | exactly the sixteen digits are read, in either case |
| QuotedPrintable.ReadsBack | edge/src/contacts.ts:47-62 | every sequence of literals and escapes is read back from its text |
| QuotedPrintable.DecodesWhatWasEncoded | edge/src/contacts.ts:47-62 | any encoding of a text decodes to it, exactly when it does not begin with a byte order mark |
| QuotedPrintable.SplitQuoted | edge/src/contacts.ts:16-30 | the parts rejoin to the value and hold no bare separator or open quote; refused exactly for an open quote |
| QuotedPrintable.WrittenPropertyIsRead | edge/src/contacts.ts:83-152 | an encoded property, softly broken anywhere and with quoted parameters in its head, unfolds to one line that splits into its head and value, and the value decodes to the text |

## Left out

- Sockets, HTTP, TLS, SQLite, `flock`, `fsync`, Asterisk, FFmpeg and all cryptography: the environment described above.
- Printing, command-line parsing, metrics, provisioning display and the setup checks.
- File owners, permissions and symbolic links; directories are maps from paths to contents.
- The checks on one account book (`Problems`): text rules of a single file, which `Check` takes as given.
- Media fetching, request validation and authentication at the edge, and the long poll around a pull.
- Browsing menus, bookmarks and the page picker of the telephone library: `ListenIn` lets them do anything.
- The rest of contact parsing after a line is split and decoded (names, telephone numbers, nesting of cards).
- AccountClient.Login: a request that is too large or malformed is treated like any other failed request, and the clock only moves between polls.
- AccountRuns.ForeignGrantExactlyWhen: the lifetime of a grant is not part of it, so the grant may have expired by then.
- AccountClient.RecoveryPost: what a recovery request carries and returns is not modelled, so neither is a 200 whose body cannot be read.
- AccountClient.AuthorizeRecovery: the poll with the grant's own secret settles nothing in the source either; the house named beside the box in a grant's scope is not kept.
- RecoverySafety.AlwaysSafe: the ciphertext on disk may be lost or altered at any time, no other file; a request takes effect within the call that makes it or never, and no other box rewrites this box's generations.
- RecoveryCommand.StageRecovery: extraction itself is any tree at all; only what verification lets through matters.
- RecoveryCommand.PrepareCloudRestore: that a reply lists no stored backup is part of its download failing.
- BackupDest.Keep: names are a host and a time, or something else; the spelling of a bundle's name, its calendar and its time zone are reduced to day and Monday-based week numbers.
- EdgeWorker.Ack: the text rules of a result are not modelled, only that it names an acknowledged id.
- EdgeWorker.Status: each turn of the loop lets a second pass, as the source's timer does.
- Playlist.ChapterReady: sums and comparisons are exact where the source uses 64-bit floating point, whose error over 4094 terms is far below the tolerance.
- Listening.EndsByTheNextWord: a length is nominal and counted from the reading it was measured by; what passes between that reading and the command, such as the warning itself, comes on top, and the prompts and pages of the menus are not cut at all, as in the source.
- Listening.Call.PlayWindow: the position of a window streamed whole is what Asterisk reports, which the caller of `playWindow` clamps; the conversion of seconds to samples is exact where the source multiplies floating point.
- SyncLoop.Sync.Loop: the loop is modelled with a bell, whose absence only leaves two channels that are never ready; fairness of the scheduler is not modelled, so that the loop goes on is not stated; that it never sleeps on a ring is.
- Bell.Client.Run: log lines and their suppression are not modelled, nor are the heartbeat timers, for which the environment may end a session at any time; that the loop goes on is not stated.
- QuotedPrintable.SplitQuoted: strings are sequences of Unicode characters where the source indexes UTF-16 units; the two agree because the input was decoded from UTF-8 and every separator is one unit.
- ZipDirectory.BoundedZipDirectory: a read error, which the source treats as a refusal, does not occur.
