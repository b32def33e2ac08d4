# A verified model of swoosh's trust files and signed updates

swoosh works with machines addressed by their keys. What a machine trusts lies in a home directory: the pin of
one root, a standing that root signed, the root's signed list of devices, an address book, the ledger of links
this machine signed, and the settings of a running `serve`. This project models the code that encodes, stores,
exchanges, reads and changes those files, and proves what that code promises of them.

Run `dafny verify dfyconfig.toml` in this directory.

## The modules

| module | what it models | main results |
|---|---|---|
| `Codec`, `Roster`, `FullRoster` | the canonical encoding of the signed update, its reader, its writer, its one constructor | one byte string per document; what builds parses; order does not matter; the exact size bound, which a well-formed document meets |
| `Fold`, `FoldExact`, `Exchange` | how an update reaches a device's files, and how two devices of one root come to hold the same | what an update held revokes is refused at every moment of every run; two devices converge; an update reaches every device a chain of exchanges leads to, whole where the root was never copied |
| `Text`, `GrantRecords`, `AppendLog` | the ledger's rows, and the append that puts one down | rows read back; a prune loses no live row; every line whose append returned `Ok` stands, and survives power losses |
| `Ledger`, `LedgerLimits`, `LedgerAnswers` | the serving process over `links` and `links.used` | a one-use link is granted at most once over any run, exactly when the granting write is one the disk keeps and no id minted goes on where the link's ends; what follows without either |
| `Debounce`, `Gate`, `ServeToml` | the three live readers | a cached answer is a direct read's, and what `serve` holds is its file's, within the debounce, unless a read made that near failed; a failure yields nothing, or for `serve.toml` changes nothing |
| `TrustFiles`, `Standing` | the write routine on a disk that forgets, `join`, `leave`, and how a home reads | wherever the new pin may be found so is the rest of the join, exactly when that held before it; every way a home half joined or half left reads |
| `Contacts`, `BookExact`, `Peer` | the address book, resolution, learning a root | what each act does, slot by slot; one key, one name; a name and a key resolve alike; an offer can be saved, and is said once |
| `Renewal`, `Route` | taking a renewed standing, and handing one out | the stored end strictly rises and the pin never moves; what is handed out reads back |
| `Escape`, `Invite`, `Names` | the text codecs | nothing hidden reaches a line; the cut is at whole escapes; printed invites parse, and what parses is one; one spelling a seed; a suggestion is a name |
| `Order`, `Wrappers` | byte order, the stable sort, and `Option`/`Result` | sorting shows every repeat and forgets the order given |

A function gives what an operation computes on values; a method takes the source's own steps, in place or field
by field, and is proved to come to that function; the lemmas are about the function. Where several results meet,
the same functions serve both: the exchange folds through the fold, the gate asks through the ledger's own step,
and the route hands out rows of a verified update.

## What is assumed

- Of nauthy's types: a usable key keeps its 32 bytes, a revocation id its bytes, a link its text. Which bytes are
  a key, which text is a link, and whether a standing is bound to a key are predicates (`Codec.Foreign`,
  `Standing.Formats`, `Fold.Rules`, `Invite.Formats`), of which nothing else is used. The fold and the exchange hold
  whatever update each blob is taken for; `Fold.Signed` ties that to a signed payload and the parser.
  `RevocationId::from_hex` takes either case of hex. A standing counts as bound up to and including its last second.
- A `FileStamp` never recurs for another version of a file (`Debounce.Stamps`), and two absent stamps never agree.
- `home.lock` and `serve.lock` exclude other writers, so a fold, a join or an append is not interleaved with
  another of its kind. Readers are interleaved freely: every state a method passes through is kept in a ghost
  field, and claims are about all of them.
- A sync makes what it names survive a power loss; what was not synced may be lost, or left as anything.
- The update digest tells apart the updates the exchange in question compares (`Exchange.Tells`).

## Where the code does less than a reader may expect

Each of these is a condition a caller could check, and the lemmas beside it show what follows without it.

- An append that returned `Ok` is safe from every power loss exactly when it found the file missing or its entry
  already on disk (`AppendLog.OkIsDurableExactly`). A first append that made the file and then failed leaves a file
  whose entry no later append syncs (`LedgerLimits.FirstWriteUnanchors`). For `links.used` this is one of the two
  conditions of the at-most-once claim: in every state that fails it a link now granted is granted again after a
  power loss and a start (`LedgerLimits.UnanchoredGrantsTwice`).
- A row of `links` torn inside its id reads as the same row under a shorter id (`LedgerLimits.TornRowReads`), and
  if it reads at all only so (`Ledger.TornRow`). So the other condition is that no id still to be minted goes on
  where the link's own ends, as none does where ids are of one length: one that does, torn there, hides the link's
  row, and an ask made meanwhile forgets that the link was used (`LedgerLimits.ExtendingGrantsTwice`). The two
  together are exact (`LedgerLimits.AtMostOnceExactly`).
- A join that changes the pin keeps a new pin from standing without the rest of the join exactly when the home it
  starts from does (`TrustFiles.DoJoin`). One that may already show that pin with another standing does not: a home
  left with no sync since, or one whose switch to another root stopped, which
  `src/bin/swoosh/commands/join.rs:213` finishes back to the root still pinned
  (`TrustFiles.JoinBackShowsPinEarly`). A crash then reads as a join that did not finish, except where a leave went
  before: it may read as a pin without its standing, exactly when the home may have shown a live pin and no standing
  before the join (`Standing.JoinLacksStanding`).
- A leave syncs nothing between its removals, so its order holds for a process that stops, not for a power loss: the
  standing may be found with the pin gone exactly when the home before may have shown that standing
  (`TrustFiles.LeaveNotOrderedOnDisk`). Such a home reads as a join that did not finish, though it is a leave that
  did not (`Standing.LeftHomeReads`; `src/joining.rs:4-7` says it names the verb that finishes it).
- The number of the update held can fall when the update held could not be read (`Fold.UnreadFalls`).
- A fork counts as carried when the update held lists the same ids, whenever it says they end. It is then refused
  with that update exactly while the update lists none of the fork's ids as ending sooner
  (`Fold.CarriedIsDenied`; `Fold.CarriedButAdmitted` is a pair of updates where it does).
- Laying down your own devices keeps one name for each key exactly when no person other than you holds one of
  those keys (`Contacts.DeriveKeepsAll`); the code does not ask.
- A machine's bare key resolves like its name exactly when it is no root the book knows (`Peer.NameOrKey`).

## Model

| member | source | states |
|---|---|---|
| Order.SortInPlace | src/codec.rs:124 | the in-place sort comes to the stable sort by key of what the array held |
| Order.SortShowsRepeats | src/codec.rs:120-129 | after the sort, neighbours show every repeated key there is, and with none the list is strictly ascending |
| Order.SortForgetsOrder | src/codec.rs:119-129 | two orderings of one list without repeats sort to one list |
| Order.LessExact | src/codec.rs:119-129 | byte strings come by the first byte in which they part, a proper prefix first |
| Order.NameOrder | src/contacts.rs:537-559 | and names by their characters, a name before those it begins |
| Names.StoredLabelExact | src/names.rs:48-54 | a stored device name reads back exactly when it is a name, unreserved and already folded, and then as itself |
| Names.NameExact | src/names.rs:76-87 | a typed name is letters, digits and `-`, 1 to 63 of them, the first no `-`, kept in lower case |
| Names.ParseFolds | src/names.rs:76-87 | folding decides nothing but the spelling, and the folded spelling is a fixed point |
| Names.SuggestedFrom | src/names.rs:128-148 | the loop over the hostname's characters comes to the suggestion |
| Names.SuggestedIsAName | src/names.rs:125-148 | a suggestion is an unreserved name with no doubled or leading `-`; there is none exactly when nothing of the alphabet is left, or a reserved word is |
| Names.SuggestsItself | src/names.rs:125-148 | a hostname whose part before the first dot is a tidy, unreserved name suggests that very name |
| Names.SuggestionKeeps | src/names.rs:125-148 | a suggestion keeps the letters and digits of that part, in order and in lower case, all of them unless cut; whatever is outside the alphabet counts as a dash |
| Codec.BigEndianInverse | src/codec.rs:33-56 | a count or number within its width survives the cast and the big-endian bytes |
| Codec.FromBigEndianInverse | src/codec.rs:269-279 | and every byte string of a width is the one spelling of its number |
| Codec.GetLabel | src/codec.rs:298-303 | an accepted name is a stored name and its bytes are the only ones that spell it |
| Codec.GetStanding | src/codec.rs:306-311 | an accepted standing is a link within its bound, spelled one way |
| Codec.GetId | src/codec.rs:313-321 | an accepted id is within its bound, spelled one way |
| Codec.GetCount | src/codec.rs:282-290 | an accepted count is within its bound, spelled one way |
| Codec.IdShapeExact | src/codec.rs:313-349 | reading and writing one id of a sorted list undo each other, whatever follows |
| Codec.DeviceShapeExact | src/codec.rs:354-371 | the same for one revoked device |
| Codec.ListSound | src/codec.rs:336-349 | an accepted list is valid, strictly ascending, of the counted length, and spelled exactly as it is written |
| Codec.ListBack | src/codec.rs:206-219 | a valid list reads back whole, whatever follows it |
| Codec.Buffer.PutIds32 | src/codec.rs:206-211 | the loop of pushes appends a count and each id's bytes |
| Codec.Buffer.PutRevoked32 | src/codec.rs:213-219 | the loop of pushes appends a count and each revoked device's bytes |
| Codec.Reader.Take | src/codec.rs:251-259 | the cursor moves past exactly the bytes taken, or stays and refuses |
| Codec.Reader.Ids | src/codec.rs:336-349 | the reading loop, with its comparison to the last id pushed, comes to the list reader |
| Codec.Reader.RevokedDevices | src/codec.rs:354-371 | the same for revoked devices, each key held against the last before its name is read |
| Roster.ParseExact | src/roster.rs:273-310 | bytes parse to a document exactly when the document is well formed and the bytes are its own canonical bytes |
| Roster.BytesDecide | src/roster.rs:225-271 | two well-formed documents with equal bytes are one document |
| Roster.NoAcceptedExtension | src/roster.rs:276-310 | no accepted byte string properly extends another |
| Roster.SizeBound | src/roster.rs:40-88 | every document fits `MAX_ROSTER_BLOB` with the envelope around it, one that fills every list and field to the byte, and the constant is 7524482 |
| FullRoster.BoundIsMet | src/roster.rs:40-88 | wherever there are keys and a standing to fill it, a well-formed document, which its own bytes parse back to, takes the bound to the byte |
| Roster.BuildExact | src/roster.rs:163-191 | a document builds exactly when every bound holds and no key, live name or id repeats, and then holds what was given with each list sorted |
| Roster.RefusalIsTrue | src/roster.rs:163-191 | a refusal is true of what was given: the key, or the name, it names stands twice among the members, a bound is passed, or an id or a revoked key repeats |
| Roster.BuildIsValid | src/roster.rs:145-155 | what builds is well formed and parses back from its own bytes |
| Roster.RebuildParsed | src/roster.rs:166-191 | a parsed document, rebuilt from its own lists, is itself |
| Roster.BuildForgetsOrder | src/roster.rs:166-191 | permuting the members, each one's ids, the revoked ids and the revoked devices gives the same document or a refusal on both sides |
| Roster.CanonicalBytes | src/roster.rs:250-271 | the writes to the buffer, in order, come to the document's encoding |
| Roster.ParseCanonical | src/roster.rs:277-310 | the cursor's field-by-field parse comes to the parser, errors included |
| Roster.WithRevocations | src/roster.rs:166-191 | checking, then sorting each owned list where it lies, comes to the constructor, the first error included |
| Roster.CheckLabels | src/codec.rs:147-156 | sorting the names aside and scanning neighbours finds the repeated name the specification finds |
| Roster.CheckIdsInPlace | src/codec.rs:139-144 | the bound on each id, then the in-place sort and the scan |
| Roster.CheckDevice | src/codec.rs:132-136 | the bounds in order, with the ids sorted into the member |
| Roster.IsRevokedKey | src/roster.rs:219-223 | halving a strictly ascending list finds the key exactly when it is there |
| Roster.RevokedKeyExact | src/roster.rs:218-223 | on every well-formed document the search answers exactly the keys listed |
| Fold.Device.Fold | src/roster/fold.rs:93-130 | every state passed through refuses what the update revokes before any list names it; a return of `Ok` is the whole fold |
| Fold.Device.FoldFork | src/roster/fold.rs:152-171 | the same for a fork, which never becomes the update held |
| Fold.NewerExact | src/roster/fold.rs:105-130 | an update is taken exactly when its number passes that of the update held, and only then does the list or the standing change; taken or a fork, all it revokes is refused |
| Fold.MoveUpholds | src/roster/fold.rs:85-130 | one fold, fork, revocation or removal, stopped anywhere, keeps the home refusing all that its update and its fork revoke |
| Fold.RunUpholds | src/roster/fold.rs:1-11 | over any run of them nothing refused is admitted again, and the number held never falls while it can be read |
| Fold.UnreadFalls | src/roster/fold.rs:173-205 | an update held that cannot be read gives way to an older one |
| Fold.CarriedIsDenied | src/roster/fold.rs:304-314 | a fork the update held carries is refused on every home that refuses that update, exactly when each of the fork's ids still to end stands in the update with an end still to come |
| Fold.CarriedButAdmitted | src/roster/fold.rs:304-314 | an id the update held lists as ended counts as carried, and is admitted though the fork revokes it |
| FoldExact.FoldExact | src/roster/fold.rs:93-132 | the files after a fold, whole, by how its number stands to that of the update held, in terms of the update's own lists: what is refused, the update held, and the fork kept or let go |
| FoldExact.FoldForkExact | src/roster/fold.rs:152-171 | the same for a fork passed on |
| FoldExact.StandingExact | src/roster/fold.rs:239-270 | the standing changes only when the update is taken, and only to its own row's: bound to this key, ending later, neither the key nor the standing's id among those it revokes; and a well-formed update taken that gives such a one leaves that one |
| FoldExact.StoppedExact | src/roster/fold.rs:85-171 | wherever a fold stops, no more is refused than the update revokes, and the standing is the old one or one the update gives |
| FoldExact.HeldExact | src/roster/fold.rs:173-205 | a list is held exactly when it can be read, fits, and is an update under the pin |
| Exchange.Converges | src/sync.rs:177-330 | after an exchange both devices hold the newer update, or each its own at one number and says `Forked`; the answer names which exactly |
| Exchange.BothRefuse | src/sync.rs:1-25 | both then refuse all that the newest update either held revokes, two at one number included |
| Exchange.BothRefuseForks | src/sync.rs:317-350 | and all that the fork either kept revokes, where the update now held, if it carried that fork when it came, lists none of its ids as ending sooner than now |
| Exchange.AfterKeeps | src/sync.rs:152-330 | over any sequence of exchanges no number falls and nothing refused is admitted again |
| Exchange.Spreads | src/sync.rs:152-330 | an update reaches every device a chain of exchanges leads to, which ends with its number or a higher one |
| Exchange.SpreadsWhole | src/sync.rs:152-330 | and with its very bytes, where no other update known has its number or a higher one |
| GrantRecords.LineBack | src/grants.rs:536-588 | a row's line reads back equal exactly when its holder has no tab, its expiry is a whole representable second, and it is no delegable one-use link |
| GrantRecords.FromLineExact | src/grants.rs:555-588 | a line reads as a row exactly when it is seven fields between tabs, each spelling what the row says, the service and the served target usable, and no delegable one-use link |
| GrantRecords.WrittenEnds | src/grants.rs:536-588 | of when a link ends a row keeps the whole seconds, and the epoch for anything before it |
| Text.ParseU64Exact | src/grants.rs:555-588 | an end is read from digits, a `+` before them or not, whose value fits 64 bits |
| GrantRecords.AppendsReadBack | src/grants.rs:87-143 | records appended in sequence read back in order, after whatever the file held, a torn last line included |
| GrantRecords.RecordsFramed | src/grants.rs:163-195 | what is appended after a text's last line is ended adds its own records and takes none |
| GrantRecords.PruneExpired | src/grants.rs:207-244 | the counting and the keeping loops come to the pruned text |
| GrantRecords.PruneExact | src/grants.rs:197-244 | below the threshold nothing changes; at it exactly the rows that read as expired go, the rest staying in order, readable or not |
| GrantRecords.PruneKeepsLive | src/grants.rs:197-244 | no live row is lost to a prune and none comes of one |
| GrantRecords.PrunedRows | src/grants.rs:197-244 | with fewer rows over than the threshold a prune keeps them all, and else exactly those whose last whole second has not passed, in order |
| GrantRecords.PrunedLines | src/grants.rs:197-244 | and every line that does not read as such a row stays as it was, readable or not |
| AppendLog.LogFile.AppendLine | src/grants.rs:169-195 | the open, the newline owed, the write, the syncs, any of which may stop part way |
| AppendLog.AppendWrites | src/grants.rs:163-195 | what an append leaves: the line and its newline after what was there, one newline more first when the last line had none; all of it and synced when it returned `Ok`, else some of it from the front |
| AppendLog.AppendKeepsLines | src/grants.rs:163-195 | however an append stops, every whole line before it is whole after it |
| AppendLog.OkLinesStand | src/grants.rs:163-195 | from any file and over any appends, each stopped anywhere, every whole line that stood and every line whose call returned `Ok` is a whole line, in order |
| AppendLog.OkLinesSurvive | src/grants.rs:163-195 | and with power losses anywhere between them, where each call that returned `Ok` before one found the file missing or its entry on disk |
| AppendLog.OkIsDurableExactly | src/grants.rs:163-195 | one returned `Ok` is safe from every power loss exactly when the file was missing or its entry was on disk |
| Ledger.IssuedLedger.Parse | src/grants.rs:415-442 | the loop over lines comes to the rows by id, a later line of an id replacing an earlier |
| Ledger.IssuedLedger.Refresh | src/grants.rs:358-412 | the rows, the spent links, the stamp and the readable mark after a look, in each way it can come out |
| Ledger.IssuedLedger.IsIssued | src/grants.rs:452-476 | the answer, the memory and the file after an ask, the write included, come to the decision |
| LedgerAnswers.AnswerExact | src/grants.rs:452-476 | over every run an ask is answered yes exactly when the last row its id has in the text last read reaches what this run binds, and, for a one-use link, it is unspent and its use is written; nothing else changes `links.used`, and what counts as spent changes by that id and those a read finds no one-use row for |
| LedgerAnswers.GrantIsBound | src/grants.rs:452-476 | so a one-use link is granted only where its last row in the text last read is a one-use link's for what this run binds |
| LedgerAnswers.SpentExact | src/grants.rs:334-352 | `links.used` spends exactly the ids its lines spell |
| Ledger.OpenLedger | src/grants.rs:309-330 | a ledger opens with what `links.used` holds spent and the rows read once, and does not open when that file cannot be read |
| Ledger.FailedWriteSpendsNothing | src/grants.rs:467-475 | a refused ask leaves the memory as it was, and a failed write grants no one-use link |
| Ledger.TornRow | src/grants.rs:536-588 | a row cut anywhere reads, if at all, as the whole row does but under a prefix of its id, and under all of its id only when whole |
| Ledger.StepOk | src/grants.rs:246-263 | each step of the system, minting no id that goes on where the link's ends, keeps a spent link spent for every process that may be asked |
| Ledger.AtMostOnce | src/grants.rs:258-263 | a one-use link is granted at most once over every run that mints no id going on where its own ends and whose granting writes find `links.used` missing or its entry on disk; and never when its use was on disk already |
| Ledger.GrantIsOnDisk | src/grants.rs:445-476 | the use is durable in `links.used` before the grant, exactly when the write finds that file missing or its entry on disk |
| LedgerLimits.AtMostOnceExactly | src/grants.rs:246-263 | a one-use link now granted is granted at most once over every run that follows, its mints taking ids from a given set, exactly when the granting write finds `links.used` missing or its entry on disk and no id of the set still to be minted properly extends the link's |
| LedgerLimits.UnanchoredGrantsTwice | src/grants.rs:172-194 | in every state where that write finds neither, the grant, a power loss and a start grant the link again |
| LedgerLimits.FirstWriteUnanchors | src/grants.rs:172-194 | a first write that made the file and failed leaves such a state, with the link still to be granted |
| LedgerLimits.TornRowReads | src/grants.rs:555-588 | a row cut inside its id, after whole bytes of it, reads as the same row under those bytes |
| LedgerLimits.ExtendingGrantsTwice | src/grants.rs:163-195 | one mint whose id properly extends a granted link's, torn where the ids part while the gate is asked, gets the link granted again |
| Debounce.RefreshFresh | src/gate.rs:157-195 | a refresh keeps what is held a direct answer from no earlier than the last stat, or what the read made at that very stat gave, when that read failed on its own account |
| Debounce.LookIsSparing | src/gate.rs:157-195 | a stat is made exactly when the last was a debounce ago, and a read exactly then, of a file whose stamp is not the one held |
| Gate.FilePin.Refresh | src/gate.rs:157-195 | every failure replaces what was held, and a held key is judged by the revocations of now |
| Gate.FilePin.Current | src/gate.rs:239-254 | the root admitted for the run, unless revoked, in place of the pin; else the pin as it reads |
| Gate.CacheRefinesDirect | src/gate.rs:90-99 | after any run of asks, an answer is what a direct read gives less than a debounce before the ask or during it, or what a read the reader made that near gave, one that failed on its own account |
| Gate.ReadsKeepDirect | src/gate.rs:90-99 | so while no read made that near fails so, every answer is a direct one |
| Gate.OneKeyExact | src/gate.rs:229-236 | a key is taken from a text exactly when the text, trimmed, is one line and that line is the key's |
| Gate.PinIsCurrent | src/gate.rs:153-254 | a root is admitted only if it is not revoked and the file, trimmed, was one line, that key's, no longer ago than the debounce |
| Gate.OthersAdmitNothing | src/gate.rs:153-254 | so a file of several lines, or of anything but one key, throughout the debounce has no root admitted |
| Gate.PinIsAdmitted | src/gate.rs:90-99 | a file whose one line is one key's throughout the debounce, its reads not failing, has that key admitted exactly when it is not revoked now |
| Gate.NoEarlierPin | src/gate.rs:153-195 | a look that finds anything but one line, a key's, yields no pin, whatever was held |
| Gate.LedgerRefresh | src/grants.rs:355-412 | the ledger's refresh is the same cache over its rows |
| Gate.LedgerIsCurrent | src/grants.rs:250-256 | the rows asked of are those of the file no longer ago than the debounce, or none after a read made that near failed |
| Gate.RowIsTheFiles | src/grants.rs:247-256 | a row the gate asks of was, no longer ago than the debounce, the last the file had of its id |
| Gate.RowIsHeld | src/grants.rs:247-256 | and the last row the file has of an id throughout the debounce, its reads not failing, is one the gate asks of |
| ServeToml.LiveServeToml.Take | src/serve_toml.rs:609-642 | only a read of a file that is there and runs replaces what is held; a refused content is marked read, other failures are not |
| ServeToml.LiveServeToml.Refresh | src/serve_toml.rs:582-599 | the debounce, the stat and the read come to the next held state |
| ServeToml.LiveServeToml.Serve | src/serve_toml.rs:479-489 | a re-read at once, then what the run bound is fixed |
| ServeToml.LiveServeToml.IsEnabled | src/serve_toml.rs:662-672 | a service is enabled exactly when the state after the look does not refuse it |
| ServeToml.LiveServeToml.Refused | src/serve_toml.rs:468-473 | the status lists the names off and the names that left |
| ServeToml.LiveServeToml.ServiceSnapshot | src/serve_toml.rs:492-516 | the snapshot's pairs and bits, and its two errors |
| ServeToml.LiveServeToml.Waits | src/serve_toml.rs:519-547 | what waits after a look |
| ServeToml.LiveServeToml.Watch | src/serve_toml.rs:551-563 | the loop over turns says what came newly to wait |
| ServeToml.WaitingWasSaid | src/serve_toml.rs:549-563 | whatever waits was said when it came to, and has stayed the same since |
| ServeToml.OneStory | src/serve_toml.rs:466-516 | the gate, the status and the snapshot agree on every bound name |
| ServeToml.RefusesExact | src/serve_toml.rs:644-672 | a service is refused exactly when the held file has it off, or the run bound it and the file runs it no more; and when the snapshot has nothing to show |
| ServeToml.NothingPends | src/serve_toml.rs:519-547 | nothing waits and nothing was dropped exactly when the relay and resolver are the same and the file runs what is bound, or nothing that runs was ever held |
| ServeToml.PendingExact | src/serve_toml.rs:519-547 | what waits, name by name: services the file runs that the run did not bind, those under another target, a relay or a resolver not the one bound over |
| ServeToml.SaysTurn | src/serve_toml.rs:549-563 | a turn says what waits when it is not what the turn before found, and nothing when nothing waits |
| ServeToml.LookExact | src/serve_toml.rs:580-642 | one look replaces the whole of what is held or none of it, exactly when the read is good |
| ServeToml.MarkExact | src/serve_toml.rs:580-642 | what a look remembers of its time and of the stamp: a good read's own, the stat's for a file refused for what it holds, and else the one before |
| ServeToml.FailuresKeepAll | src/serve_toml.rs:294-296 | over any failed reads nothing held, refused or waiting changes |
| ServeToml.HeldIsWhole | src/serve_toml.rs:603-642 | over any reads what is held is one good read and what it runs |
| ServeToml.HeldIsCurrent | src/serve_toml.rs:580-642 | after any looks and an ask, less than a debounce before the ask or during it the file was what is held, or was missing, refused or undated, or a read made since then failed on its own or found nothing dated |
| ServeToml.ReadsKeepCurrent | src/serve_toml.rs:288-296 | so while the file runs and reads succeed, what is held is the whole of the file at a moment that near |
| TrustFiles.Home.WritePrivateAtomic | src/config.rs:162-195 | in every state the target is the old file or the whole new one, now and after a power loss; `Ok` is durable; an error before the rename leaves the old |
| TrustFiles.Home.RenamePrivate | src/config.rs:204-211 | the rename and the directory sync, an error of which comes after the rename |
| TrustFiles.Prepare | src/joining.rs:43-56 | the old lists go and the inviter is written, on disk, before the standing; each file is its old self or whole in every state |
| TrustFiles.DoJoin | src/joining.rs:36-59 | in every state of a pin-changing join each file is its old self or whole, and a new pin stands beside the rest in every state exactly when it did in the home it started from; the same-root write touches the standing alone |
| TrustFiles.JoinCrash | src/joining.rs:36-59 | every power loss keeps that promise exactly when the disk lets the pin be found only with the rest of the join |
| TrustFiles.JoinBackShowsPinEarly | src/bin/swoosh/commands/join.rs:205-215 | a home that may already show the join's pin beside another standing, or none, may be found so |
| TrustFiles.DoLeave | src/joining.rs:136-146 | in every state the pin outlasts what it makes mean anything, and a kept root keeps its lists; what went may be found as it was or gone, and nothing else changed |
| TrustFiles.LeaveNotOrderedOnDisk | src/joining.rs:141-144 | after a leave that went through, a power loss may keep the standing and lose the pin exactly when the home before it may have shown that standing |
| Standing.JoinReadsWhole | src/standing.rs:291-376 | a crash anywhere in a join, into any home, reads as the join done, as a join that did not finish, or as a crash before it would have |
| Standing.ReadExact | src/standing.rs:291-376 | how a home reads, each standing and each damage by its exact condition on the pin, the standing held, this machine's key, the root kept and the keys revoked |
| Standing.JoinReadsQuiet | src/standing.rs:291-376 | into a home no act is half way through, the last is as the home read, whatever pin it held |
| Standing.JoinLacksStanding | src/standing.rs:328-376 | a crash in a join may read as a pin without its standing exactly when the home before may have shown a live pin and no standing |
| Standing.LeftHomeReads | src/standing.rs:328-376 | after a leave that went through, a power loss may leave a device's home reading in four ways and no other: unpinned, as it was, a pin without its standing, a standing without its pin |
| Standing.LeaveReadsWhole | src/standing.rs:328-364 | a device stopped while leaving reads as itself, as a leave that did not finish, or, exactly once the pin is gone, as trusting no root |
| Contacts.SavedAtExact | src/contacts.rs:537-559 | the lookup answers a name that holds the key, and none exactly when none does |
| BookExact.SavedAtFirst | src/contacts.rs:537-559 | and it is the first person in name order with the key, their root before their machines, these in name order |
| Contacts.Book.Save | src/contacts.rs:496-535 | the book and the answer after a save, refusals and the learned mark included |
| Contacts.Book.Learn | src/contacts.rs:442-459 | the book and the answer after a learn |
| Contacts.Book.ReplaceRoot | src/contacts.rs:464-488 | the book and the answer after a replacement |
| Contacts.Book.Remove | src/contacts.rs:570-591 | the book and the answer after a removal, an emptied person included |
| Contacts.Book.DeriveMe | src/contacts.rs:340-361 | `me` becomes the devices listed, or nothing, and the trusted root is kept |
| BookExact.SaveDone | src/contacts.rs:490-535 | what a save writes and answers, by what the name held, every other name as it was |
| BookExact.LearnDone | src/contacts.rs:442-459 | the same for a learn, the machine it came from remembered |
| BookExact.ReplaceDone | src/contacts.rs:464-488 | the same for a replacement: the person's root is the new one, and the one before is answered |
| BookExact.SeeDone | src/contacts.rs:428-438 | a saved machine remembers the root it showed, and nothing else changes |
| BookExact.RemoveDone | src/contacts.rs:570-591 | after a removal what was named holds nothing, every other name is as it was, and the answer says whether it was there |
| BookExact.DeriveDone | src/contacts.rs:340-361 | after a derivation your machines are those listed, and nobody else changes |
| Contacts.SaveExact | src/contacts.rs:490-535 | a save goes through exactly when the name holds the key already or neither is taken, and then the name holds it |
| Contacts.RefusalsAndBindings | src/contacts.rs:490-535 | a refusal writes nothing, and saving or learning never changes a key a name holds |
| Contacts.RunKeeps | src/contacts.rs:428-591 | over any sequence of acts no key has two names among people other than you, and nobody is left empty |
| Contacts.ActKeepsAll | src/contacts.rs:428-591 | every act but deriving your devices keeps it over the whole book |
| Contacts.DeriveKeepsAll | src/contacts.rs:347-360 | and deriving keeps it exactly when no other person holds one of the keys listed |
| Peer.NameOrKey | src/peer.rs:338-370 | in any book a machine's name and its key resolve alike exactly when the key is no known root |
| Peer.NameAndKeyAgree | src/peer.rs:393-532 | with one name a key, a machine's name resolves to the name typed and its owner's kind, and the key alike exactly when it is not your root |
| Peer.BarePerson | src/peer.rs:427-455 | a bare person resolves exactly when one machine of theirs is saved, and says so |
| Peer.NoMachine | src/peer.rs:393-455 | a name that is no one machine resolves to the error that says which it is, with the machines there are |
| Peer.KeyExact | src/peer.rs:350-370 | a key, a link and a root, resolved |
| Peer.WhoseExact | src/peer.rs:476-515 | whose a root is: yours, the first person's in name order who has it, or nobody's |
| Peer.OfferExact | src/learn.rs:111-128 | a root is offered exactly when it is new from that machine and learning it would succeed, and is a conflict exactly when it is new from it and the person has another, which is named |
| Peer.SaveShown | src/learn.rs:258-267 | the root learned when it can be, and remembered either way |
| Peer.SaidOnce | src/learn.rs:112-128 | remembered for a saved machine, a root stays quiet through every act until that machine shows another or goes |
| Renewal.DeviceHome.TakeRenewal | src/joining.rs:88-120 | the standing changes only to one bound to this key under the pin, unrevoked and ending later; the pin is out of reach |
| Renewal.TakesExact | src/joining.rs:88-120 | into a home that holds a root's standing for this machine, a standing is taken exactly when that root signed it for that key, it has not ended and ends later, and neither the key nor any of its ids is refused |
| Renewal.TakerExact | src/joining.rs:88-120 | and into no other home |
| Renewal.TakenReadsBack | src/joining.rs:82-120 | a taken standing reads back as this machine's, under the same root, until its end |
| Renewal.EndsRise | src/joining.rs:82-120 | over any fetched standings the stored end strictly rises |
| Renewal.KeepDialable | src/sync.rs:581-594 | the keeping loop comes to the dialable devices |
| Renewal.DialableOnce | src/sync.rs:560-595 | each listed device once, exactly those neither this machine nor revoked |
| Renewal.DialableInOrder | src/sync.rs:560-595 | in the order listed, each where it first stands |
| Renewal.PickUp | src/renewal.rs:246-276 | the devices listed, but for this machine and those refused, are asked in order, each at most once, up to the first whose standing is taken |
| Route.ServedExact | src/renewal.rs:96-132 | what is handed out, exactly, in terms of the update's lists: the asking key's own row, neither the key nor the standing refused here or there, and not ended |
| Route.ServedReadsBack | src/renewal.rs:78-94 | every standing handed out is framed as a hit and read back whole |
| Route.RowRevokedIsOwn | src/renewal.rs:107-119 | on a device that upholds what it folded, only this machine's own key is left for the row's own check |
| Route.AnswerExact | src/renewal.rs:185-204 | what one side answers the other reads, exactly for a standing an update may carry |
| Escape.FmtWithLimit | src/escape.rs:62-85 | the budgeted loop with its early return comes to the capped render |
| Escape.FittingLongest | src/escape.rs:28-29 | a prefix's escapes fit the budget exactly when it is no longer than the cut |
| Escape.CappedExact | src/escape.rs:56-85 | the complete render when it fits, else the escapes of the longest prefix that does and the mark |
| Escape.RenderShows | src/escape.rs:1-28 | nothing reaches a line but printable ASCII and characters that print as themselves, those that print as blank space not among them |
| Escape.CappedShows | src/escape.rs:56-85 | nor in a capped render |
| Escape.EscapeTable | src/escape.rs:21-28 | controls with escapes of their own, quotes and the backslash have those, and the blank letters are spelled out, whatever prints raw |
| Escape.PlainStays | src/escape.rs:21-28 | printable text is left alone |
| Escape.RenderBack | src/escape.rs:39-54 | a complete render reads back as its text |
| Escape.RenderDecides | src/escape.rs:15-19 | no two texts render alike |
| Invite.Decode32Back | src/invite.rs:139-144 | what is encoded decodes to itself |
| Invite.Encode32Back | src/invite.rs:151-164 | and decodes from nothing else, the last letter's zero bits included |
| Invite.SeedExact | src/invite.rs:136-164 | a text spells a seed exactly when its ASCII case folds to the seed's one lower-case spelling |
| Invite.InviteBack | src/invite.rs:75-134 | a printed invite parses to itself in both shapes |
| Invite.ParseExact | src/invite.rs:75-134 | a text parses exactly when it is the prefix in any case and, between dots, the seed if there is one, a machine's key, a name that may be given, and the two parts of a link |
| Invite.ShapeByCount | src/invite.rs:85-92 | the number of fields alone fixes the shape |

## Left out

- Codec.GetLabel: does not tell bytes that are not UTF-8 from text that is not a name; both refuse with one error.
- Codec.Reader.Take: a cursor is unbounded, so the check that `cur + n` fits a `usize` never fails here.
- Roster.BuildForgetsOrder: claims a refusal on both sides, not the same error, which depends on the order given.
- Ledger.AtMostOnce: holds for a granting write that the disk keeps, and mints whose ids do not extend the link's,
  which `LedgerLimits.AtMostOnceExactly` shows to be the exact conditions; takes the ids of mints as fresh, and a
  power loss as leaving of an id only rows once appended; a row that left the ledger and came back by another hand
  is outside it.
- Ledger.IssuedLedger.IsIssued: what a run binds under each name is a predicate; comparing targets is not modelled.
- Standing.LeaveReadsWhole: a device with no root kept on it, and a process that stops; a power loss after a leave is
  `Standing.LeftHomeReads`.
- Exchange.Converges: both devices' files are read and written without failure during the exchange, and no other
  act changes them meanwhile; each side's own failures are in `Fold.Device.Fold`.
- Fold.Device.Fold: `invited-by`, whose removal is best-effort, and the address book read again afterwards; the
  standing a row carries is compared by the row's own end, as the code does.
- Peer.BarePerson: the lists an error carries are sets, not in name order.
- Renewal.PickUp: the random order of the devices under `me`, and the time each may take.
- The signed envelope and `roster::verify`'s three errors, which become one.
- TOML and UTF-8 decoding, Unicode tables, and the URLs of a relay and a resolver: they are predicates or given.
- `ServeToml::try_update`, which writes only what a change returned `Ok` for and differs: one branch.
- `Peer::from_str`, link files, `OwnDevice`, `learn::unrooted`, the sweep over machines, and the one-shot signal
  of a dial: single matches or filters, and sockets.
- `LinksForAnother`, `AnchorCut`, `humanize` and every printed line: warnings and thin tests over what is modelled.
- Root acts (`src/root.rs`): cutting an update, and bringing a fork's revocations forward into the next one.
- `identity`, `home`, `credential`, `badge`, `node_client`, `reach` and `reaching`: key storage, modes, sockets.
- Log lines, file modes, owner checks beyond readable, loose or not, and the process id in a temp name.
- Wiping of secrets in memory, and errors of the formatter.
