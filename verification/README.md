# Verified models of the Harmolyn client

A Dafny 4.11 project that models the most intricate logic of the client and proves what it promises. `dafny verify dfyconfig.toml`
checks everything.

| component | files |
|---|---|
| Conversation reconciliation (`ChatArea.tsx`, local store in `client.ts`) | `Anchoring`, `LiveView`, `LiveHistory`, `Merge`, `MergeLaws`, `MergeRecords`, `ChatStore`, `Conversation`, `IncomingLaws` |
| The send slot (`ChatArea.tsx`) | `SendSlot`, `SendSlotLaws`, `SendSlotRuns`, `SendSlotAccounts`, `SendSlotEffects`, `SendSlotScreen`, `Composer` |
| The native control client's HTTP/1.1 response reader (`lib.rs`) | `RustText`, `Chunked`, `Headers`, `HttpText`, `FramingLines`, `Response` |
| Search, recents, colour hash, snapshot normalisation (`QuickSwitcher.tsx`, `data.ts`) | `Fuzzy`, `JsonText`, `Recents`, `ColorHash`, `JsValues`, `SnapshotRecords`, `Snapshot`, `EntryLaws`, `ReadingLaws`, `TableLaws`, `RecordLaws`, `SnapshotLaws`, `ServerLaws`, `SnapshotAgain`, `SnapshotValues`, `ProtoWitness` |
| Shared | `Outcomes`, `Sequences`, `JsText`, `TextLaws`, `CodeUnits` |

Code that changes state is a class or a method with loops, proved equal to a specification function; the theorems are about
the specification functions, over all inputs, runs and interleavings.

**Reconciliation.** `ViewRefs` holds the three refs of the live view. The backward walk, the tombstone loops and the emitting
loops are proved equal to `View`/`Next`. Over any run of refreshes each message's place in a view is then determined by that
message's own history (`FateOf`), a reference definition with no lists in it. `Block` is the declarative meaning of the backward
walk that both reconcilers share: the entries whose first surviving successor is a given message.

**The send slot.** `SendSlot.Next` is a transition system over user steps, renders, scope effects and promise completions in any
order; `Composer` has the component's refs and handlers, each proved to take exactly the corresponding step. The object identity
by which submissions are compared is a number taken from a counter. A ledger of outcomes is kept for the account only; its
entries are tied to tasks, the held submission, the deliveries and the owners. `SendSlotScreen` adds what is on the screen: the
recovery panel with the flag that disables its buttons. Its runs are runs of the protocol.

**The response reader.** UTF-8, hexadecimal and decimal reading and printing are concrete. Printers (`Chunked.Message`,
`Response.Wire`) serve as specifications and both directions are proved. The chunk decoder's positions are machine integers,
with arithmetic that is checked (debug builds) or wraps (release builds).

**Normalisation.** An object is its own properties, an enumeration order and whether its prototype is `Object.prototype`. A value
"stands for" a normalised record when reading it gives the record's fields and enumerating its tables, in any order, gives
their entries; so applying a normaliser to its own output is applying it to any value that stands for that output. What a
normaliser makes of a value that is not normal is told by the value's own properties (`ReadingLaws`, `TableLaws`).

White space, letter case, header marks, JSON escapes and separators are written out as code points where a law is about them
(`TextLaws`, `HttpText`, `JsonText`, `Fuzzy`), apart from the functions that decide them.

## Where the code differs from what is said about it

- The merge with the previous result is a fixpoint in memory, but the local store drops deletion stamps, actors and blank
  messages, so persisting and refreshing is not. `ChatStore.StoreRoundTripIff` gives the exact condition on the two lists;
  `ChatStore.DeletionStampsDrift` and `ChatStore.HistorySlipsPastTombstone` are inputs that fail it.
- `fuzzyScore` is documented as positive; a match can be worth zero (`Fuzzy.MatchWorthNothing`, `Fuzzy.PositiveIff`).
- A recent switch is read back only if its id has at most 256 units and the JSON text at most 8192 (`Recents.SelectionIff`);
  selecting seven ids of 200 to 226 control characters, each within the first limit, breaks the second and leaves nothing
  (`Recents.SevenSelectionsLoseEverything`).
- Assigning an object to the property `__proto__` replaces the prototype, and an object with a replaced prototype is not
  accepted by the next normalisation. Normalising a normalised snapshot gives it back exactly when, in the servers and sessions
  that were kept and in presence, no acceptable channel, role assignment, participant or presence entry is called `__proto__`,
  and the acceptable settings, if there are any, are not all called so (`SnapshotAgain.SnapshotAgainIff`).
  `ProtoWitness.SecondNormalisationEmptiesCall` is a voice session that the second normalisation empties.
- The end of a chunk is computed without regard to overflow. A size line near the greatest integer makes the decoder panic
  instead of refusing the body: `Chunked.PanicsIff` says exactly when, `Chunked.SizeNearMaximumPanics` is such a line, and
  `Chunked.PanicIsInvalidBody` says that nothing that decodes is affected.

## Model

| member | source | states |
|---|---|---|
| Anchoring.WalkBackBlocks | src/components/ChatArea.tsx:834-850 | the backward walk files every entry, in order, under its first surviving successor, or in the tail when it has none |
| Anchoring.EmitConserves | src/components/ChatArea.tsx:853-859 | the emitted list holds the new messages and the anchored entries, each exactly as often, nothing else |
| Anchoring.EmitKeepsOldIff | src/components/ChatArea.tsx:834-859 | the old order is a subsequence of the reconciled list exactly when old and new agree on the ids they share |
| Anchoring.EmitFixpoint | src/components/ChatArea.tsx:752-793 | reconciling the same new list with the reconciled list gives it back |
| LiveView.ViewRefs.HealTombstones | src/components/ChatArea.tsx:813-815 | tombstones of live ids are forgotten, the others keep their records and order |
| LiveView.ViewRefs.EntombVanished | src/components/ChatArea.tsx:820-825 | every seen id that is neither live nor entombed gets a blank copy of its last record with the current time |
| LiveView.ViewRefs.WalkOrder | src/components/ChatArea.tsx:834-850 | the walk over the previous order yields exactly the blocks of its slots |
| LiveView.ViewRefs.AppendUnplaced | src/components/ChatArea.tsx:861-865 | tombstones that no position could place follow at the end, in the order they were made |
| LiveView.ViewRefs.BuildLiveView | src/components/ChatArea.tsx:807-868 | the view and the new contents of all three refs as functions of the old refs, the snapshot and the clock |
| LiveHistory.ShownIsFates | src/components/ChatArea.tsx:807-868 | after any run of refreshes a view has no duplicate ids and shows each id as its own history says: the live record, the tombstone of its last live record at the time of the loss, or nothing |
| LiveHistory.NothingEvaporates | src/components/ChatArea.tsx:796-868 | after a nonempty refresh the ids shown are exactly those seen live since the channel was entered |
| LiveHistory.EmptyRefreshShowsTombstones | src/components/ChatArea.tsx:817-826 | an empty refresh shows exactly the tombstones that already existed |
| LiveHistory.TombstoneAppears | src/components/ChatArea.tsx:819-826 | when a live message is first missed, its last record stays, blank and stamped with that refresh's time |
| LiveHistory.TombstoneStampedOnce | src/components/ChatArea.tsx:812-826 | a tombstone is the same in every later view until the id is live again, when the live record replaces it |
| LiveHistory.UnplacedOnlyAfterEmpty | src/components/ChatArea.tsx:859-865 | the fallback loop adds entries only right after an empty refresh |
| LiveHistory.StepKeepsOrder | src/components/ChatArea.tsx:831-868 | the incoming order is always kept; the previous view's order is kept exactly when the two agree on shared ids |
| LiveHistory.ViewsNeverReorder | src/components/ChatArea.tsx:831-868 | over any run of agreeing refreshes every earlier view stays a subsequence of the last one |
| LiveHistory.NoTwoMessagesSwap | src/components/ChatArea.tsx:831-868 | over such a run no two messages ever change places, and no id is shown twice |
| Merge.MergePersistedMessages | src/components/ChatArea.tsx:742-794 | the loops compute the merge specification for all lists, repeated ids included |
| MergeLaws.MergeContents | src/components/ChatArea.tsx:735-794 | the merge shows every id of either list once: live records with their deletion annotations, the others as their last persisted copy |
| MergeRecords.LiveRecord | src/components/ChatArea.tsx:742-789 | field by field: a live message that is not deleted is shown as it is; of a deleted one text and other fields are shown as they are, the stamp is the stored one, else its own, else the current time, and the stored actor counts when it names none |
| MergeRecords.StoredRecord | src/components/ChatArea.tsx:742-772 | a persisted-only message is shown as its last persisted copy, with the current time as stamp if it was deleted locally and the copy has none |
| MergeRecords.NothingElse | src/components/ChatArea.tsx:742-794 | every message shown has the id of a live or a persisted one |
| MergeRecords.RepeatsCountOnce | src/components/ChatArea.tsx:772-778 | of live messages with the same id only the first one counts |
| MergeLaws.MergeIsCommonSupersequence | src/components/ChatArea.tsx:748-793 | the live order is kept always, the persisted order exactly when the lists agree on shared ids |
| MergeLaws.MergePosition | src/components/ChatArea.tsx:748-770 | a persisted-only message stands in the block directly before its first live successor, or in the tail |
| MergeLaws.MergeFixpoint | src/components/ChatArea.tsx:742-794 | merging the same live list with the merge result gives that exact result, records included, at any later clock |
| ChatStore.NormalizeStoredMessages | src/protocol/client.ts:1216-1236 | what is read back keeps the first nonblank message of each id without stamps, actors and dropped fields |
| ChatStore.StoredSays | src/protocol/client.ts:1216-1236 | whatever is written, what is read back is, for each id but the empty one, its first message with text, in the written order, without stamp, actor and dropped fields |
| ChatStore.StoreFromStable | src/protocol/client.ts:1216-1236 | a list in the form the store hands out is read back unchanged |
| ChatStore.StoreOrderIff | src/components/ChatArea.tsx:888-890 | writing and reading back keeps the merged order exactly when no persisted-only message has a blank live message as its next live one in the persisted list |
| ChatStore.StoreRoundTripIff | src/components/ChatArea.tsx:888-890 | it gives back the same merged list at another clock exactly when moreover every locally deleted message shown has a stamp in the live list |
| ChatStore.DeletionStampsDrift | src/protocol/client.ts:1260-1308 | a locally deleted offline message is stamped anew at each refresh |
| ChatStore.HistorySlipsPastTombstone | src/protocol/client.ts:1260-1272 | history in front of a remote tombstone moves behind it after one trip through the store |
| Conversation.NormalizeChatMessages | src/components/ChatArea.tsx:193-250 | the normalising loop computes its specification, positional ids included |
| IncomingLaws.NormalFromRecords | src/components/ChatArea.tsx:193-250 | whatever comes in, the messages that go on are those of the first record of each id, in order of position, each with the text of its record or none, its other fields, and its two stamps trimmed or absent |
| TextLaws.DecimalDenotes | src/components/ChatArea.tsx:206 | the position in the id of a record without one is written in decimal digits that denote it |
| TextLaws.TrimIff | src/components/ChatArea.tsx:206-223 | trimming takes the white space of ECMAScript off both ends, code point by code point, and nothing else |
| Conversation.NormalFromClean | src/components/ChatArea.tsx:193-250 | whatever comes in, the ids that go on are nonempty and unrepeated |
| Conversation.NormalFromIds | src/components/ChatArea.tsx:200-225 | every record's id goes on, and no other |
| Conversation.SessionFollowsChannel | src/components/ChatArea.tsx:870-886 | after any run of events the refs are those of the current channel's own refreshes |
| Conversation.NoIdFromEarlierChannel | src/components/ChatArea.tsx:870-876 | no id from an earlier channel is ever in a view |
| Conversation.Conversation.Refresh | src/components/ChatArea.tsx:870-890 | one refresh effect: channel reset, normalisation, live view and merge together |
| Conversation.RefreshAgain | src/components/ChatArea.tsx:742-890 | the same snapshot at a later clock, merged with the list shown before, gives the same live view and list, record for record |
| SendSlotRuns.NextInv | src/components/ChatArea.tsx:552-603 | every step of every handler and completion keeps the slot invariant |
| SendSlotEffects.SendDraftStarts | src/components/ChatArea.tsx:1024-1086 | online and with a free slot, a draft that is neither blank nor a command starts exactly one send: the draft as it is, to the channel, with the reply unless its target exists only on this device, under the revisions of both |
| SendSlotEffects.SendAuxStarts | src/components/ChatArea.tsx:1097-1105 | a sticker, GIF or voice message starts one send under the same conditions, without revisions |
| SendSlotEffects.RetryStarts | src/components/ChatArea.tsx:982-997 | Retry from a panel that shows the held submission sends that very submission |
| SendSlotEffects.RetryIff | src/components/ChatArea.tsx:982-988 | Retry does something exactly when the panel shows a submission of the owner in use, who serves this scope and whose slot is free, online, while nothing else is held |
| SendSlotEffects.UploadStarts | src/components/ChatArea.tsx:1149-1160 | a prepared upload ends and its message starts with its content, in the channel in which the upload began |
| SendSlotEffects.UploadBegins | src/components/ChatArea.tsx:1116-1128 | an upload with a free slot takes it, for the channel in use |
| SendSlotEffects.UploadGoesOn | src/components/ChatArea.tsx:1149-1168 | a file that was read goes on to encryption exactly when its owner is still in use; otherwise, and on failure, the upload ends and frees its slot |
| SendSlotEffects.NoSuchTask | src/components/ChatArea.tsx:995-1013 | a completion that no task of its kind is waiting for does nothing |
| SendSlotEffects.ForwardBegins | src/components/ChatArea.tsx:1604-1613 | a forward with a free slot takes it, with nothing sent or failed yet |
| SendSlotEffects.ForwardGoesOn | src/components/ChatArea.tsx:1614-1657 | each destination is counted once, as sent or as failed, and the forward ends with the last one or when its owner is no longer in use |
| SendSlotEffects.ForwardsAddUp | src/components/ChatArea.tsx:1612-1647 | in every run the destinations sent, failed and left of a forward add up to those it began with |
| SendSlotEffects.SettleEffect | src/components/ChatArea.tsx:990-1013 | a success clears draft and reply exactly when the revisions it carries are current and lets go of a held submission; a failure holds it; both free the slot, book the outcome and change nothing else; of a retired owner only the slot and the account change |
| SendSlotEffects.CommandEffect | src/components/ChatArea.tsx:1028-1074 | no slash command sends: `clear`, `me` and `shrug` empty the composer, `nick` with a name empties the draft, anything else leaves it as it is |
| SendSlotEffects.OfflineSend | src/components/ChatArea.tsx:1086-1094 | offline, or without a channel, a send only empties the composer |
| SendSlotEffects.SendRefused | src/components/ChatArea.tsx:1024-1026 | a blank draft or a slot that is not free: nothing happens |
| SendSlotEffects.OthersRefused | src/components/ChatArea.tsx:1097-1128 | the same for stickers, uploads and forwards without a free slot, a channel or a destination |
| SendSlotEffects.DiscardEffect | src/components/ChatArea.tsx:1016-1022 | a discard with a free slot lets go of the held submission and changes nothing else |
| SendSlotEffects.CommitEffect | src/components/ChatArea.tsx:552-567 | a scope change retires the owner, brings a fresh one, lowers the flag and gives up a submission that was only held; running sends, draft and reply stay |
| SendSlotEffects.EditEffect | src/components/ChatArea.tsx:529-534 | typing and choosing a reply change just that, under a new revision |
| SendSlotEffects.RenderEffect | src/components/ChatArea.tsx:2345-2351 | a render shows the held submission in the panel |
| SendSlotRuns.OneActionInFlight | src/components/ChatArea.tsx:589-603 | in every interleaving at most one action is in flight under the current owner, and the sending flag says whether |
| SendSlotAccounts.EverySubmissionAccounted | src/components/ChatArea.tsx:982-1022 | after any run an accepted submission is in flight exactly when a send of it runs, held exactly when it is the recoverable one and none runs, delivered only if it is among the deliveries, abandoned only if its owner is retired, and once settled neither running nor held |
| SendSlotAccounts.DeliveredIff | src/components/ChatArea.tsx:990-1003 | a submission becomes delivered exactly when its own send succeeds |
| SendSlotAccounts.DiscardedIff | src/components/ChatArea.tsx:1016-1022 | it becomes discarded exactly when it is held, the slot is free and Discard is pressed |
| SendSlotAccounts.AbandonedIff | src/components/ChatArea.tsx:552-567 | it becomes abandoned exactly when its send fails after its owner was retired, or when the scope changes while it is held and no retry of it runs |
| SendSlotRuns.CapturedOnce | src/components/ChatArea.tsx:982-1014 | the captured request of a submission never changes and its account is never closed |
| SendSlotRuns.SentAsCaptured | src/components/ChatArea.tsx:989-997 | whatever is being sent, retries included, is a captured request |
| SendSlotRuns.FailedSubmissionSurvives | src/components/ChatArea.tsx:982-1022 | a held failed submission leaves exactly by its own send succeeding, an explicit discard with a free slot, or a scope change |
| SendSlotRuns.StaleCompletionIsInert | src/components/ChatArea.tsx:551-567 | a completion of an owner that is no longer current changes no draft, reply, revision, held submission, panel, flag or owner in use |
| SendSlotRuns.RevisionIsVersionStamp | src/components/ChatArea.tsx:529-534 | whenever a captured revision is still current, the composer holds what was captured or nothing |
| SendSlotRuns.SuccessClearsOnlyWhatItSent | src/components/ChatArea.tsx:995-1002 | a success clears only the text and reply it sent; sends without a revision never clear the draft |
| SendSlotEffects.ScreenEffect | src/components/ChatArea.tsx:2345-2351 | a disabled button does nothing; any other click and a render show the state that results; completions and scope changes happen behind what is shown |
| SendSlotEffects.RetryPressed | src/components/ChatArea.tsx:2350 | an enabled Retry sends the submission the panel shows, which stays held and shown with the buttons disabled |
| SendSlotEffects.DiscardPressed | src/components/ChatArea.tsx:2351 | an enabled Discard gives up the held submission and empties the panel |
| SendSlotScreen.ScreenRunIsRun | src/components/ChatArea.tsx:2350-2351 | whatever happens on the screen, disabled buttons included, is a run of the protocol |
| SendSlotScreen.ScreenStepInv | src/components/ChatArea.tsx:2350-2351 | every step keeps: while the buttons are enabled nothing is in flight, and a panel of the current owner shows the held submission |
| SendSlotScreen.FinalLeftIff | src/components/ChatArea.tsx:984-985 | for the guard alone, a settled submission is sent again exactly when Retry submits it from a panel that still shows it while the guard passes |
| SendSlotScreen.FinalStaysFinal | src/components/ChatArea.tsx:2350-2351 | on the screen that never happens: what was delivered, discarded or abandoned stays so |
| SendSlotScreen.AtMostOneDelivery | src/components/ChatArea.tsx:982-1014 | in every interleaving of clicks, renders, scope changes and completions each submission is delivered at most once, and the deliveries are exactly the submissions booked as delivered |
| SendSlotLaws.HandOff | src/components/ChatArea.tsx:1153-1160 | the upload's slot passes to the prepared message without ever being free for another action |
| Composer.Composer.IsMessageSendBlocked | src/components/ChatArea.tsx:589-592 | the guard reads the refs as the transition system does |
| Composer.Composer.BeginMessageAction | src/components/ChatArea.tsx:593-599 | the slot is taken exactly when the guard passes |
| Composer.Composer.FinishMessageAction | src/components/ChatArea.tsx:600-603 | the slot is freed; the flag is cleared only for the owner in use |
| Composer.Composer.StartSubmission | src/components/ChatArea.tsx:982-988 | the synchronous half of a submission |
| Composer.Composer.SubmissionSettled | src/components/ChatArea.tsx:995-1013 | the half after the await, both outcomes and the `finally` |
| Composer.Composer.DiscardFailedSubmission | src/components/ChatArea.tsx:1016-1022 | an explicit discard is one discard step |
| Composer.Composer.HandleSendMessage | src/components/ChatArea.tsx:1024-1095 | a send from the composer, slash commands and offline mode included, is one send step |
| Composer.Composer.OnUploadReady | src/components/ChatArea.tsx:1149-1168 | the hand-off of an upload, with both `finally` blocks as one step |
| Composer.Composer.OnForwarded | src/components/ChatArea.tsx:1614-1657 | one more destination of a forward, stopping when the owner is no longer in use |
| Composer.Composer.CommitScopeEffect | src/components/ChatArea.tsx:552-567 | cleanup of the old owner and takeover by a fresh one |
| Composer.Composer.RenderRecovery | src/components/ChatArea.tsx:2345-2351 | panel and disabled flag are rendered together, from the state and nothing older |
| Composer.Composer.PressRetry | src/components/ChatArea.tsx:2350 | a press of Retry, disabled or not, is one step of the screen |
| Composer.Composer.PressDiscard | src/components/ChatArea.tsx:2351 | so is a press of Discard |
| RustText.DecodeEncode | src-tauri/src/lib.rs:368-369 | UTF-8 text is read back from its bytes, whatever follows |
| RustText.DecodeIff | src-tauri/src/lib.rs:368-369 | bytes are read as a text exactly when they are its UTF-8 encoding (RFC 3629) |
| RustText.ParsePrint | src-tauri/src/lib.rs:537-538 | a printed number is read back exactly when it fits the integer type |
| RustText.NumeralIff | src-tauri/src/lib.rs:536-538 | a text is, once trimmed, read as a number exactly when it is white space, an optional plus sign, zeros, the canonical digits of that number in any letter case and white space, and the number fits the integer type |
| Chunked.DecodeChunkedBody | src-tauri/src/lib.rs:523-549 | the cursor loop ends with the recursive decoder's result, errors included, or panics exactly on the inputs that overrun, with checked and with wrapping arithmetic |
| Chunked.PanicsIff | src-tauri/src/lib.rs:542-546 | the inputs that overrun are the well-formed chunks followed by a size line whose chunk would end beyond the integer type, and, when arithmetic wraps, whose wrapped positions still pass both comparisons |
| Chunked.PanicIsInvalidBody | src-tauri/src/lib.rs:542-546 | a panic only ever stands in for the invalid-body error |
| Chunked.SizeNearMaximumPanics | src-tauri/src/lib.rs:542-546 | a first size line one below the greatest integer panics with either arithmetic, whatever follows |
| Chunked.DechunkIff | src-tauri/src/lib.rs:523-549 | decoding succeeds with some bytes exactly when the input starts with a chunk list ended by a zero-size line whose data these are (section 7.1 of RFC 9112) |
| Chunked.RefusedSays | src-tauri/src/lib.rs:523-549 | whatever is refused is well-formed chunks followed by what the error says: no line break, a line that announces no size, or an announced size without its data and line break |
| Chunked.AppendingChangesNothing | src-tauri/src/lib.rs:540-542 | bytes after the last chunk, trailers included, never change a successful result |
| Chunked.OutputFits | src-tauri/src/lib.rs:546 | the output is no longer than the input |
| Chunked.SizeLineIff | src-tauri/src/lib.rs:534-538 | a line is read as a size exactly when it is UTF-8 text made of a hexadecimal numeral for it and nothing else or a `;` and an extension |
| Chunked.SizeLineIsRead | src-tauri/src/lib.rs:534-538 | a hexadecimal size with an optional extension is one line and is read as that size |
| Chunked.ChunkedRoundTrip | src-tauri/src/lib.rs:523-549 | any nonempty pieces with any extensions decode to their concatenation |
| Headers.ParseHeaderLines | src-tauri/src/lib.rs:399-431 | the loop over the header lines computes the fold, with the error of the first wrong line |
| Headers.LineIff | src-tauri/src/lib.rs:433-444 | a header line is well formed exactly when it is a token, a colon and a value without control characters (section 5 of RFC 9112) |
| HttpText.LineTextIff | src-tauri/src/lib.rs:433-496 | by code points: a line is well formed exactly when it is a nonempty name of ASCII letters, digits and the fifteen marks, a colon, and a value of tabs and characters from 0x20 up but 0x7F |
| HttpText.OtherLineIsNeutral | src-tauri/src/lib.rs:399-431 | such a line under any other name than the two that frame a body changes, wherever it stands, neither the framing nor the error |
| HttpText.SpaceIff | src-tauri/src/lib.rs:449-450 | white space is the White_Space property of Unicode, code point by code point |
| Headers.TransferEncodingIff | src-tauri/src/lib.rs:405-415 | a Transfer-Encoding list counts as chunked exactly when its one nonblank element is the chunked coding, is ignored when all are blank, and is refused otherwise |
| Headers.FoldIff | src-tauri/src/lib.rs:399-431 | the fold succeeds with a framing exactly when all lines are right, chunked is stated by some line, and all stated lengths are that length |
| HttpText.FoldErrorIff | src-tauri/src/lib.rs:399-431 | the header section is refused with an error exactly when that is what is wrong with its first wrong line: it is not read, or states another length than a line before it |
| Headers.OrderDoesNotMatter | src-tauri/src/lib.rs:399-431 | a permutation of the lines is accepted with the same framing |
| FramingLines.LengthIff | src-tauri/src/lib.rs:416-427 | a Content-Length value is read as a length exactly when it is a decimal numeral for it that fits the integer type, and is refused otherwise |
| FramingLines.LengthLine | src-tauri/src/lib.rs:416-427 | a Content-Length line in any letter case is read as its decimal length |
| FramingLines.ChunkedLine | src-tauri/src/lib.rs:405-415 | a Transfer-Encoding line naming only the chunked coding, in any letter case, is read as chunked |
| FramingLines.OneFramingLine | src-tauri/src/lib.rs:399-431 | one framing line put anywhere among unrelated fields decides the framing |
| Response.StatusIff | src-tauri/src/lib.rs:446-467 | a status line is accepted with a status exactly when it is white space, `HTTP/1.0` or `HTTP/1.1`, white space, that status in three digits, from 200 to 599, and then nothing or white space and anything |
| Response.StatusSays | src-tauri/src/lib.rs:446-467 | each error of a status line has its own condition on its first two words, in the order in which they are tried; otherwise the status is the three digits |
| Response.ParseIff | src-tauri/src/lib.rs:364-397 | the reader returns a response exactly when the bytes are the UTF-8 form of an accepted status line and accepted field lines, joined by CRLF, then a blank line and a body framed as they say: a chunk list, the stated length or all that is left |
| Response.DeliverIff | src-tauri/src/lib.rs:381-396 | an empty body gives no value, JSON gives its value, anything else is refused below status 400 and made a message from there on |
| Response.HeadErrorsIff | src-tauri/src/lib.rs:364-370 | the head is missing exactly when there is no blank line, and unreadable exactly when what precedes the first one is no UTF-8 text |
| Response.ParseWire | src-tauri/src/lib.rs:364-397 | reading the printed form of any lines without a CRLF in them, only the first possibly empty, reads that status line, those header lines and that body, whatever fails |
| Response.MessagesDoNotPanic | src-tauri/src/lib.rs:375-380 | on a body that is read as a response the chunk decoder does not panic |
| Response.LengthMustMatch | src-tauri/src/lib.rs:375-380 | a message that states a length and no chunked coding is read as its body exactly when the body has that length, else refused as truncated or oversized |
| Response.SameBodyEitherWay | src-tauri/src/lib.rs:375-380 | the same body under a Content-Length or in chunks gives the same response (section 6.3 of RFC 9112) |
| Response.ContentLengthOrChunked | src-tauri/src/lib.rs:364-431 | the same with the framing lines written out, in any case and position, and the response is the one that body should give |
| Fuzzy.FuzzyScore | src/components/QuickSwitcher.tsx:48-78 | the score is null exactly when the lower-cased query is not a subsequence of the lower-cased target, else the worth of the match that is pointwise earliest |
| Fuzzy.EarliestIsUnique | src/components/QuickSwitcher.tsx:57-75 | that match is unique, so the score is a function of the two texts |
| Fuzzy.ScoreBound | src/components/QuickSwitcher.tsx:53-77 | every score lies between 0 and a best score of its length, hence at most 2n(n-1) + 18n + 8 |
| Fuzzy.BestIsReached | src/components/QuickSwitcher.tsx:53-77 | the best score is reached for every length |
| Fuzzy.PositiveIff | src/components/QuickSwitcher.tsx:62-77 | the exact condition for a positive score |
| Fuzzy.MatchWorthNothing | src/components/QuickSwitcher.tsx:41-47 | a match that scores zero |
| Fuzzy.LongerTargetScoresLess | src/components/QuickSwitcher.tsx:76-77 | the same match in a longer target is still the earliest one and is worth a quarter less for every unit more, up to a length of 32 more than the query |
| Fuzzy.CharacterAdds | src/components/QuickSwitcher.tsx:62-75 | one more matched character adds twelve less its position while positive, four for every character of its run so far, and six at the start or after one of the separators, which are listed |
| Recents.CappedIsFront | src/components/EmojiPicker.tsx:144-148 | for any cap, the capped list after any run of selections is the duplicate-free front of the unbounded most-recently-used list |
| Recents.FullIsHistory | src/components/QuickSwitcher.tsx:32-35 | the unbounded list is the selection history read backwards, each element once |
| Recents.LocalStorage.SaveRecentSwitch | src/components/QuickSwitcher.tsx:32-39 | the storage entry after a selection, blocked and refused storage included |
| Recents.SelectionIff | src/components/QuickSwitcher.tsx:20-39 | a selection is read back as intended exactly when id and text fit the two limits |
| Recents.SaveSays | src/components/QuickSwitcher.tsx:32-39 | what is written is a JSON text of the selected id in front of the others that were read, at most twelve; blocked or refusing storage keeps what it holds |
| Recents.ReadSays | src/components/QuickSwitcher.tsx:20-30 | whatever is stored, what is read are the first twelve strings of at most 256 units, in order; nothing if the text has more than 8192 units or is no array |
| Recents.SomeReaderReads | src/components/QuickSwitcher.tsx:23-24 | a reader of the JSON grammar exists, so the statements that assume one are never void |
| JsonText.StringifyIsText | src/components/QuickSwitcher.tsx:35 | the printed list is a text of the JSON grammar (RFC 8259) that denotes the list |
| JsonText.QuotePrints | src/components/QuickSwitcher.tsx:35 | in a printed string only quotes, backslashes, control characters and lone surrogates are escaped, in the shortest form there is |
| JsonText.ArrayTextUnique | src/components/QuickSwitcher.tsx:23-24 | no text of the grammar denotes two lists |
| Recents.RunIff | src/components/QuickSwitcher.tsx:20-39 | over a run the stored list is the front of the unbounded one after every selection exactly when every selection fits, told from the unbounded list alone |
| Recents.ModestRun | src/components/QuickSwitcher.tsx:20-39 | with ids that stay short when quoted this holds for every run |
| Recents.OrdinaryIsModest | src/components/QuickSwitcher.tsx:20-39 | ids of at most 256 units without control characters or surrogates are among those |
| Recents.SevenSelectionsLoseEverything | src/components/QuickSwitcher.tsx:20-39 | from empty storage, after seven distinct selections of 200 to 226 control characters the list read back is empty, though six were remembered just before |
| ColorHash.ColorForSeed | src/data.ts:1553-1560 | the hue is the base-31 polynomial modulo 2^32 modulo 360, if arithmetic below 2^37 is exact |
| ColorHash.HashConcat | src/data.ts:1555-1557 | the hash of a concatenation is determined by the two hashes and the second length |
| ColorHash.SuffixKeepsCollisions | src/data.ts:1555-1557 | appending the same text neither makes nor breaks a collision |
| ColorHash.PrefixKeepsCollisions | src/data.ts:1555-1557 | nor does prepending it to texts of one length |
| JsValues.NormalizeStringArray | src/data.ts:788-806 | the loop computes the first copies of the nonempty trimmed strings |
| JsValues.NormalizeRecords | src/data.ts:868-883 | the array loop computes the first accepted record of each key |
| JsValues.RecordArrayIsKept | src/data.ts:868-883 | a record is in a normalised array exactly when the first item with its key gives it |
| JsValues.RecordArrayOrder | src/data.ts:868-883 | the records stand in the order of those items |
| ReadingLaws.UniqueTextsList | src/data.ts:788-806 | a normalised list holds each trimmed text that is not blank once, in order of first occurrence |
| ReadingLaws.IdentitySays | src/data.ts:747-769 | which values give an identity, and what each field is, told by the own properties of the value |
| ReadingLaws.ReadProfile | src/data.ts:771-786 | the same for its profile: nothing is left when name, text and acceptable avatar are all missing |
| ReadingLaws.PeerSays | src/data.ts:1335-1370 | the same for a peer, whose addresses must all be texts if it has any |
| ReadingLaws.DmSays | src/data.ts:1037-1049 | the same for a direct message, whose participants must all be texts |
| ReadingLaws.MessageSays | src/data.ts:948-1002 | the same for a message, with its reactions, attachments, flags, modes and votes |
| ReadingLaws.ReadVotes | src/data.ts:1005-1018 | an option has the nonblank voters, as they are, of the last entry that has some for it |
| ReadingLaws.FriendSays | src/data.ts:1434-1460 | the same for a friend record, in one of the five states |
| ReadingLaws.ReadManifest | src/data.ts:1292-1333 | the same for a manifest: nothing is left when all ten parts are missing |
| JsValues.RecordArrayAgainIff | src/data.ts:868-883 | a normalised array is given back exactly when each of its records is |
| JsValues.CollectAgain | src/data.ts:1100-1107 | assigning an object's own entries to a fresh one, in any enumeration order, copies it |
| Snapshot.NormalizeNumberMap | src/data.ts:835-846 | the loop computes the number map |
| SnapshotRecords.NormalizePollVotes | src/data.ts:1005-1018 | the loop computes the votes by option |
| SnapshotLaws.StringMapKept | src/data.ts:808-833 | every string map with tidy keys and values is kept, but an empty one becomes no map |
| SnapshotLaws.NumberMapKept | src/data.ts:835-846 | every number map with tidy keys and positive values is kept |
| TableLaws.SettingsSay | src/data.ts:808-833 | any object: the first entry with this trimmed key and a text decides a setting |
| TableLaws.CountsSay | src/data.ts:835-846 | any object: the last positive finite number under this trimmed key decides an unread count |
| TableLaws.PresenceSays | src/data.ts:1126-1148 | any object: the first valid record under this trimmed key decides presence, and one for `__proto__` replaces the prototype |
| TableLaws.ParticipantsSay | src/data.ts:1078-1124 | any list or object: the first participant that names this peer, or is keyed by it and names no other, decides, field by field |
| TableLaws.SessionSays | src/data.ts:1051-1076 | which values give a voice session, and what each field is |
| TableLaws.ChannelSays | src/data.ts:1258-1290 | which values give a channel of a server, and what each field is |
| TableLaws.ChannelsSay | src/data.ts:1160-1172 | the channels of a server by their ids, and when no two of them have the same |
| TableLaws.RoleSays | src/data.ts:1205-1232 | which values give a role, and what each field is |
| TableLaws.MemberRolesSay | src/data.ts:1234-1256 | any object: exactly the listed members whose entry is an array naming some declared role have an assignment, and it holds the declared roles the array names, each at its first occurrence; one for `__proto__` replaces the prototype |
| TableLaws.ServerSays | src/data.ts:1150-1201 | which values give a server, and what each field is |
| TableLaws.RecordListsSay | src/data.ts:703-745 | each list of a snapshot holds the records of its items, each at the first item with its key |
| TableLaws.SnapshotSays | src/data.ts:703-745 | which values give a snapshot, and what each field is |
| RecordLaws.PollVotesKept | src/data.ts:1005-1018 | all votes under options that some key is read as, with nonblank voters, are kept, but no votes at all become no result |
| RecordLaws.IdentityAgain | src/data.ts:747-786 | a tidy identity with its profile is kept by normalising it again |
| RecordLaws.PeerAgain | src/data.ts:1335-1370 | so is a tidy peer |
| RecordLaws.DmAgain | src/data.ts:1037-1049 | a direct message with tidy, unrepeated participants |
| RecordLaws.MessageAgain | src/data.ts:948-1003 | a message with its reactions, attachments and votes |
| RecordLaws.FriendAgain | src/data.ts:1434-1460 | a friend record |
| RecordLaws.ManifestAgain | src/data.ts:1292-1333 | and a server manifest |
| SnapshotLaws.PresenceKept | src/data.ts:1126-1148 | a presence map with tidy keys and valid records is kept exactly when its prototype is intact and it is not empty |
| Snapshot.NormalizeParticipants | src/data.ts:1078-1108 | both loops compute the participants table |
| SnapshotLaws.ParticipantsNormal | src/data.ts:1078-1124 | every participant sits under its own tidy peer id |
| SnapshotLaws.SessionAgainIff | src/data.ts:1051-1076 | every well-formed voice session is kept when its participants' prototype is intact, and otherwise loses everyone in it |
| Snapshot.NormalizeMemberRoles | src/data.ts:1234-1256 | the loop computes the role assignments |
| ServerLaws.ServerIsClosed | src/data.ts:1150-1256 | channels sit under their ids and name the server; members are distinct; only members have roles, out of the declared ones |
| ServerLaws.ServerAgain | src/data.ts:1150-1333 | every closed server record, its manifest included, is kept field by field, except that replaced prototypes drop the server or its role assignments |
| SnapshotAgain.SnapshotAgainIff | src/data.ts:703-745 | normalising a normalised snapshot gives it back exactly when the value it came from had no acceptable entry called `__proto__` in a table that was kept, and acceptable settings not all called so |
| SnapshotValues.ResultValue | src/data.ts:703-745 | some value stands for the result of any normalisation, so the statements about normalising again are never void |
| RecordLaws.SomePrinterIsRead | src/data.ts:1009-1015 | whatever names are read as numbers, some printing of those numbers is read back, as JavaScript's is |
| SnapshotAgain.ServerFreeIff | src/data.ts:1165-1256 | a normalised server keeps its prototypes exactly when no acceptable channel or role assignment of its value is called `__proto__` |
| SnapshotAgain.ParticipantsFreeIff | src/data.ts:1078-1108 | normalised participants keep theirs exactly when no participant is called so, listed or keyed |
| SnapshotAgain.PresenceFreeIff | src/data.ts:1126-1148 | the same for presence |
| SnapshotAgain.SettingsFreeIff | src/data.ts:808-833 | settings are left empty exactly when `__proto__` is the only acceptable key |
| ProtoWitness.SecondNormalisationEmptiesCall | src/data.ts:1100-1107 | a voice session that shows somebody after one normalisation and nobody after two |

## Left out

- Response.ParseIff: reading JSON and the message built from an unreadable error body are parameters; only whether reading
  succeeds, the status and the bytes matter. Where the chunk decoder panics (`Chunked.PanicsIff`) the invalid-body error is read.
- Fuzzy.FuzzyScore: case folding is a parameter and scores are exact reals; all summands are multiples of a quarter, which
  doubles represent exactly at these sizes.
- Recents.RunIff: of the JSON parser only one law is used, that it reads every text of the grammar of arrays of strings as the
  array it denotes; the printer is concrete. Every write of a run is accepted by storage.
- Recents.CappedIsFront: how the emoji picker's list is stored is not part of this model.
- SnapshotAgain.SnapshotAgainIff: whether a colour, an avatar or an attachment is acceptable, the copy made of an attachment,
  and `Number(key)` are parameters; assumed are that a copied attachment is accepted and copied alike, and that the printed form
  of a whole number that some key is read as is itself read as that number. Numbers that no key is read as do not matter.
- ChatStore.StoreRoundTripIff: the store's own trimming of the fields it keeps is not modelled; stored fields are opaque.
- Conversation.NormalizeChatMessages: fields other than id, content and the deletion stamps are opaque.
- SendSlotScreen.AtMostOneDelivery: what a click changed is rendered before the next event, as React does for discrete events;
  everything else is rendered at any later time, panel and flag together.
- SendSlotRuns.RevisionIsVersionStamp: a render after every edit is taken as immediate, so a handler sees the latest draft.
- Composer.Composer.OnUploadReady: the inner and outer `finally` of an upload are one step, as only microtasks run between them.
- JSX, focus, scrolling, toasts, CSS, and the cancelling of a file read, which is one of the ways an upload fails.
- The order in which JavaScript enumerates integer-like keys: normalisation is proved for every enumeration order instead.
- Lone surrogates in texts of which only trimming and equality matter.
- TCP, file permissions, Tauri commands, deep links, the service worker, reactions and navigation: input and output, or
  settled branch by branch.
- Cryptography and the engine, sync and store behind `src/native/`: not part of this model.
