# Verified model of the Few messenger core

A Dafny model of the parts of the Few web client whose correctness is easiest to get wrong: the contact
card codec, the pending-removal auto-commit, the optimistic delete and edit protocol, the contact, block,
pending and known-peer stores, and four smaller algorithms (invitation queue, notification bell, stagger
plan, link splitter). `dafny verify dfyconfig.toml` checks the whole project.

One module per component:

| file | models |
|---|---|
| `Js.dfy` | the JavaScript primitives used: UTF-16 strings, string order, `trim`, 32-bit integer operators with explicit wrap-around |
| `Base64Url.dfy`, `Hex.dfy`, `Unicode.dfy`, `JsonText.dfy` | the codecs: base64url, hex, UTF-8 with truncation and normalisation, JSON strings and integers |
| `SigPreimage.dfy`, `CardLayout.dfy`, `ContactCard.dfy`, `CardLink.dfy` | contact cards: signed text, binary layouts, encode and decode, links |
| `AutoCommit.dfy`, `AutoCommitRuns.dfy` | the debounced queue of pending removals and its commit, and runs that reach its odd cases |
| `ChatView.dfy`, `DeleteProtocol.dfy` | the rendered message list, its reconciliation with storage, delete and edit |
| `WalledGarden.dfy`, `Contacts.dfy`, `KnownPeers.dfy`, `PurgeSafety.dfy`, `ContactCache.dfy` | who may write, contacts, blocks, pending confirmation, known peers and the migration, cached profiles |
| `InvitationQueue.dfy`, `Bell.dfy`, `Stagger.dfy`, `Linkify.dfy` | the smaller algorithms |

Pure code is modelled by functions and lemmas. Code that updates state in place is modelled by methods and
classes whose `ensures` clauses equate the new state with a specification function, about which the laws are
then proved. Protocols that interleave at awaits are step systems, and their laws hold over every run.
Signing, verifying, npub decoding, dates, clocks, network answers and the outcome of every storage write are
parameters. A lawful signer returns a uint32 time and a signature of 64 bytes in lower-case hex that
verification accepts; nothing else is assumed of it.

Where the code does less than its comments say, the code is modelled and the exact condition is proved:

* A nickname survives encoding and decoding iff it does not begin with two byte order marks, because the text
  decoder drops one leading mark on each pass (`ContactCard.EncodedCardDecodes`; a card that is accepted with another
  name than was signed: `ContactCard.TwoBomsBreakTheRoundTrip`).
* The "snapshot" of pending removals taken when the debounce timer fires is the live array. What is committed is
  the queue at the fire iff no leave was enqueued for the group while that array was still its queue
  (`AutoCommit.SnapshotIff`, with a run from the initial state in `AutoCommitRuns.LaterLeaveIsCommitted`).
* A fired timer commits the queue as it stands, whatever leave or tree change comes before its fetch, iff its array
  is still the group's queue, that is, iff no other fired timer has replaced it since
  (`AutoCommit.CommitsPendingIff`, `AutoCommit.SnapshotIff`). Then everyone its commit removes is still queued when the
  commit succeeds (`AutoCommit.CommitIsOfItsFetch`). Otherwise a member who rejoined can be removed again although
  nothing is queued (`AutoCommitRuns.RejoinedIsRemovedAgain`).
* A queued admin leaves the admin list with a commit iff it still had a leaf; one whose leaf is gone is dropped
  from the queue and stays an admin (`AutoCommit.CommitEffect`, `AutoCommit.StaleOnlyCommitsNothing`,
  `AutoCommitRuns.StaleAdminStays`).
* A deleted message stays absent iff no storage read that began before the tombstone is still to be applied with
  the message alive (`DeleteProtocol.DeleteOutcome`); a read that begins during the publish brings it back
  (`DeleteProtocol.StaleReadBringsBack`).
* A failed delete with nothing in between restores the view iff the view held the message once
  (`DeleteProtocol.FailedDeleteRestores`). After any other window the rolled-back view shows no message twice iff the
  view before the rollback did not and nothing in the window had brought the message back for good
  (`DeleteProtocol.FailedDeleteAfterWindow`), which a reconcile does iff storage held a live row
  (`DeleteProtocol.FailedDeleteAfterReconcile`). No reconcile with a live stored row repairs a
  doubled message (`DeleteProtocol.DoubledRowSurvives`), and the next failed delete of it loses a row
  (`DeleteProtocol.SecondFailedDeleteLosesARow`).
* A failed edit with nothing in between restores the view iff every row of the message was the snapshot
  (`DeleteProtocol.FailedEditRestores`), as in a view without doubles; doubled rows that differ are merged
  (`DeleteProtocol.FailedEditMergesDoubledRows`).
* A finished edit whose closing read found a row, in a view that still shows the message, agrees with storage iff what
  storage shows for the message has not changed since that read. If the view has lost the message, they agree iff
  storage shows nothing for it. If the read found no row, the view is left alone, and they agree iff neither shows
  the message or the view shows just the row that storage has come to hold (`DeleteProtocol.EditAgreesIff`). So an
  edited message that was never stored stays shown although storage has not changed
  (`DeleteProtocol.EditOfUnstoredMessage`). A failed closing read rolls the view back although the edit was published
  (`DeleteProtocol.GroupThread.PerformGroupEdit`, `DeleteProtocol.FailedEditShowsSnapshot`).
* A purge of direct-message threads or reactions that has read the whitelist before a peer was remembered
  may still delete that peer's entries (`PurgeSafety.SurvivesIff`, an if-and-only-if; `PurgeSafety.MetTooLate`, a run).
* The migration flag is set although a purge's write failed, when the failure is one that is swallowed: a
  synchronous store is clean at the flag iff every stranger's entry it began with was found by a purge that wrote its
  result (`PurgeSafety.FlagMeansPurged`, `PurgeSafety.SwallowedWriteIsFinal`).
* The two bell subscriptions, whose checks run in different orders, ring alike iff no delivery finds unread a
  message that every earlier delivery of it found read (`Bell.OrdersRingAlikeIff`), as happens after a contact's
  counters are cleared (`Bell.OrdersDifferAfterReset`).
* A profile edit is announced once per unarchived contact: folding the keys makes two spellings of a key one
  recipient, who is sent to twice (`Stagger.AnnouncedOncePerContact`).
* Archiving a contact under another spelling of its key than the stored one blocks nobody
  (`Contacts.ArchiveBlocksIff`, an if-and-only-if).
* `importCard` reports the right outcome and keeps avatars for every cache iff its key is in lower case
  (`ContactCache.ReportIsRightIff`, `ContactCache.AvatarsSurviveIff`). This is a limit of the function, not of the
  application: its only caller passes keys that are in lower case, as every decoded card's is
  (`ContactCache.CardImportsAreRight`), and no stored profile has the empty time the avatar witness uses.

## Model

| member | source | states |
|---|---|---|
| Base64Url.DecodeEncode | app/src/lib/contactCard.ts:130-190 | decoding an encoding gives back the bytes |
| Base64Url.EncodeDecode | app/src/lib/contactCard.ts:160-190 | whatever the decoder accepts is the encoding of what it returns: one spelling per payload |
| Base64Url.GroupsSpellTheSameNumber | app/src/lib/contactCard.ts:133-139 | four digits and three bytes spell the same 24-bit number (section 4 of RFC 4648) |
| Base64Url.AlphabetIsTheTable | app/src/lib/contactCard.ts:119-127 | the symbols are those of the table of section 5 of RFC 4648, and a symbol stands for its place in it |
| Base64Url.DigitsSpellTheNumber | app/src/lib/contactCard.ts:130-152 | for any bytes, the digits spell in base 64 the number the bytes spell in base 256, with zero bits filling up the last digit |
| Base64Url.SymbolOfNumber | app/src/lib/contactCard.ts:130-152 | for any bytes, symbol j of the text is the entry of that table for the j-th six bits of the number the bytes spell |
| Base64Url.BytesToBase64Url | app/src/lib/contactCard.ts:130-152 | the shifting and masking loop with its two tails computes the encoding |
| Base64Url.WindowAfterShift | app/src/lib/contactCard.ts:174 | however often the 32-bit accumulator has overflowed, its low twelve bits are the last two digits |
| Base64Url.LeftoverDecides | app/src/lib/contactCard.ts:181-188 | the check on leftover bits accepts exactly the canonical last digits |
| Base64Url.Base64UrlToBytes | app/src/lib/contactCard.ts:160-190 | the loop with its wrapping accumulator writes floor(6n/8) bytes in bounds and computes the decoding, with the same rejections |
| Hex.HexOfBytesOfHex | app/src/lib/nostrKeys.ts:59-72 | spelling the bytes of a hex string gives it back in lower case |
| Hex.HexDigits | app/src/lib/nostrKeys.ts:67-72 | each byte is spelled by its high and its low digit out of 0123456789abcdef |
| Hex.PairByteIsParseInt | app/src/lib/nostrKeys.ts:59-65 | any pair of characters is stored as what parseInt in base 16 makes of it, NaN as 0, modulo 256 |
| Hex.SameBytesIffSameUpToCase | app/src/lib/nostrKeys.ts:59-65 | two hex strings mean the same bytes iff they agree up to letter case |
| Hex.HexToBytes | app/src/lib/nostrKeys.ts:59-65 | the pairwise loop reads any string as the source does, odd lengths and stray characters included; on hex it computes the bytes |
| Unicode.JoinPoints | app/src/lib/contactCard.ts:241-246 | the code points a string is iterated by join back to the string |
| Unicode.SurrogatePairs | app/src/lib/contactCard.ts:241-246 | a code point beyond the basic plane is a high and a low surrogate with ten bits each |
| Unicode.Utf8Bits | app/src/lib/contactCard.ts:225-227 | a scalar is written with the byte count and marker bits of the table of RFC 3629, the other bits spelling it |
| Unicode.LoneSurrogate | app/src/lib/contactCard.ts:204-217 | an unpaired surrogate is written as EF BF BD |
| Unicode.PlainText | app/src/lib/contactCard.ts:214-217 | text without unpaired surrogates survives normalising but for a leading byte order mark |
| Unicode.Utf8RoundTrip | app/src/lib/contactCard.ts:225-227 | strict UTF-8 decoding undoes encoding (section 3 of RFC 3629) |
| Unicode.Utf8Canonical | app/src/lib/contactCard.ts:607-612 | strict UTF-8 decoding accepts nothing but encodings |
| Unicode.NormalizeTwice | app/src/lib/contactCard.ts:214-217 | normalising is idempotent exactly when the result does not begin with U+FEFF |
| Unicode.NormalizedStartsWithBom | app/src/lib/contactCard.ts:214-217 | the normalised string begins with U+FEFF iff the input begins with two of them |
| Unicode.TruncateIsLongest | app/src/lib/contactCard.ts:236-248 | truncation returns the longest code-point prefix within the limit |
| Unicode.TruncateIdempotent | app/src/lib/contactCard.ts:236-248 | truncating twice is truncating once, for any limit |
| Unicode.NormalizedLength | app/src/lib/contactCard.ts:214-227 | normalising never lengthens the encoding; it loses three bytes iff a byte order mark leads |
| Unicode.CappedIsNeverTruncatedAgain | app/src/config/profile.ts:20-23 | a nickname capped at save time is not cut again by the card encoder |
| Unicode.TruncateUtf8 | app/src/lib/contactCard.ts:236-248 | the loop over code points computes the truncation |
| JsonText.QuotedPrefixFree | app/src/lib/contactCard.ts:199-201 | a text starting with a quoted JSON string starts with only one (section 7 of RFC 8259) |
| JsonText.EscapeTable | app/src/lib/contactCard.ts:199-201 | the escape of every code point: two characters, four hex digits, or itself (section 7 of RFC 8259) |
| JsonText.DecimalReads | app/src/lib/contactCard.ts:356-362 | the decimal of a number reads as that number, without leading zeros |
| JsonText.DecimalPrefixFree | app/src/lib/contactCard.ts:356-362 | a decimal number before a non-digit can be read in one way only |
| SigPreimage.SerializeInjective | app/src/lib/contactCard.ts:617-622 | two events with the same hashed text are the same event |
| SigPreimage.SignedTexts | app/src/lib/contactCard.ts:199-201 | the content of a v1 and of a v2 card and the hashed NIP-01 array, character by character |
| SigPreimage.SignedEvents | app/src/lib/contactCard.ts:343-364 | v1 is signed as kind 0, v2 as kind 20602 |
| SigPreimage.V2PreimageInjective | app/src/lib/contactCard.ts:343-364 | the v2 preimage determines pubkey, created_at, header, expiry, nonce and name |
| SigPreimage.V1PreimageInjective | app/src/lib/contactCard.ts:617-621 | the v1 preimage determines pubkey, created_at and name |
| SigPreimage.V1NeverV2 | app/src/lib/contactCard.ts:617-620 | no v1 preimage, and no v1 content, equals a v2 one |
| CardLayout.ParsePack | app/src/lib/contactCard.ts:271-333 | the parser reads back exactly what was packed, for all three layouts |
| CardLayout.PackParse | app/src/lib/contactCard.ts:529-605 | accepted bytes are the packing of what was parsed: no trailing bytes, no ignored header bits |
| CardLayout.AcceptedHeaders | app/src/lib/contactCard.ts:535-563 | of the 256 header bytes exactly 0x00, 0x20 and 0x60 pass the header checks |
| CardLayout.PackedLayout | app/src/lib/contactCard.ts:271-333 | the offset of every field in all three layouts, numbers most significant byte first |
| CardLayout.ParseRejections | app/src/lib/contactCard.ts:529-600 | for any bytes, which error the parser gives, or that it accepts, from length, header bits and name length |
| CardLayout.PackInjective | app/src/lib/contactCard.ts:271-333 | different cards have different bytes |
| CardLayout.ReadUint32IsBigEndian | app/src/lib/contactCard.ts:578-579 | the four or-ed shifts with the closing unsigned shift read a big-endian uint32, sign overflow included |
| CardLayout.ReadUint32At | app/src/lib/contactCard.ts:577-586 | reading at the moving offset gives the big-endian field |
| CardLayout.PackUnsigned | app/src/lib/contactCard.ts:271-276 | the buffer is the packing of an unsigned card |
| CardLayout.PackSigned | app/src/lib/contactCard.ts:278-295 | for any signature string and any time: throws iff the signature does not fit, else the buffer is the packing of a signed v1 card |
| CardLayout.PackSignedV2 | app/src/lib/contactCard.ts:302-333 | likewise for v2, with expiry and nonce spliced in |
| ContactCard.AcceptedIsOnePayload | app/src/lib/contactCard.ts:529-639 | an accepted string is the payload of exactly one well-formed, correctly signed card |
| ContactCard.SignedPayloadDecodes | app/src/lib/contactCard.ts:602-639 | the payload of a signed card is refused for a name that is not UTF-8 or a signature not accepted over the event of its own fields, and else yields every field |
| ContactCard.OtherPayloads | app/src/lib/contactCard.ts:529-570 | no base64url and no card are refused with their own errors; an unsigned card yields its key alone |
| ContactCard.NameBytesRecovered | app/src/lib/contactCard.ts:602-612 | the raw name bytes follow from the decoded name iff they do not begin with EF BB BF |
| ContactCard.ViewDeterminesPayload | app/src/lib/contactCard.ts:529-639 | the decoded view and the signature determine the card, byte order marks aside |
| ContactCard.EncodedIff | app/src/lib/contactCard.ts:382-422 | exactly which inputs give a v1 or unsigned card, what the signer is handed, and the error of the first failing guard otherwise |
| ContactCard.EncodedV2Iff | app/src/lib/contactCard.ts:459-499 | likewise for v2: 64 and 32 hex digits, uint32 times, a nickname other than empty or a lone byte order mark, and a signer that answers for that key with a signature that fits |
| ContactCard.EncodedBytes | app/src/lib/contactCard.ts:382-422 | for any signer, the bytes an encoded v1 or unsigned payload spells |
| ContactCard.EncodedV2Bytes | app/src/lib/contactCard.ts:459-499 | for any signer, the bytes an encoded v2 payload spells and the record returned beside it |
| ContactCard.EncodedCardDecodes | app/src/lib/contactCard.ts:382-422 | an encoded v1 card decodes to the lower-cased pubkey, the normalised truncated name and the signed created_at, iff the nickname does not begin with two byte order marks; an unsigned one always does |
| ContactCard.EncodedV2CardDecodes | app/src/lib/contactCard.ts:459-499 | likewise a v2 payload decodes to the pubkey, name, nonce and expiry returned beside it |
| ContactCard.TwoBomsBreakTheRoundTrip | app/src/lib/contactCard.ts:602-625 | a lawful signer and a nickname whose card is accepted and decodes to something else than was signed |
| ContactCard.DecodedKeyIsLower | app/src/lib/contactCard.ts:547 | every accepted card yields a pubkey of 64 lower-case hex digits |
| ContactCard.DecodeCard | app/src/lib/contactCard.ts:529-639 | the step-by-step parser computes the specified decoding, with the same error in every branch and no read out of range |
| ContactCard.EncodeCard | app/src/lib/contactCard.ts:382-422 | the steps compute the specified encoding, with the same errors |
| ContactCard.EncodeCardV2 | app/src/lib/contactCard.ts:459-499 | likewise for v2, with everything it returns beside the payload |
| CardLink.AcceptedFirstSymbol | app/src/lib/contactCard.ts:683-696 | an accepted payload begins with A, I or Y, so it is no npub and no nostr: URI |
| CardLink.NpubIsParsed | app/src/lib/contactCard.ts:665-696 | an npub in either case, bare or behind nostr: in any case, between white space or not, yields the decoded key without a profile, or the npub error |
| CardLink.TextIsParsed | app/src/lib/contactCard.ts:698-705 | any other text goes to the card decoder from behind its first #c= on, or whole without one |
| CardLink.PayloadIsParsed | app/src/lib/contactCard.ts:705-725 | the parsed result carries the decoded key, nickname, rendered date and pairing, or the error of the decoder |
| CardLink.NothingToParse | app/src/lib/contactCard.ts:673-703 | white space, a bare nostr: and a link that ends at its marker are empty input or payload |
| CardLink.ShareUrlIs | app/src/lib/contactCard.ts:424-427 | the share link is https://few.chat/add#c= and the payload; a hash yields what follows its first marker, if anything |
| CardLink.ShareLinkRoundTrip | app/src/lib/contactCard.ts:669-725 | for every accepted payload, parsing it, parsing its share link and extracting it from the link's hash agree |
| CardLink.ParseSharedUrl | app/src/lib/contactCard.ts:698-705 | a share link of any payload of base64url symbols reaches the card decoder with exactly that payload |
| AutoCommit.RemovedOnlyWhenReleased | app/src/context/MarmotContext.tsx:179-243 | over every run, an entry that left the queue was found without a leaf by a fired timer, or its commit removed all its leaves and its admin entry |
| AutoCommit.PendingAfter | app/src/context/MarmotContext.tsx:680-743 | the exact effect of every step on every queue: an enqueue appends, a fire drops the stale, a commit drops the committed, failures and teardowns change nothing |
| AutoCommit.CommitEffect | app/src/context/MarmotContext.tsx:212-232 | a successful commit removes exactly the leaves of the pubkeys it was computed from and exactly those admins among them that still had a leaf; where those pubkeys come from is stated by the next four rows |
| AutoCommit.OnlyEnqueuedAreRemoved | app/src/context/MarmotContext.tsx:680-743 | over every run, whoever loses a leaf or an admin entry to a commit had a leave enqueued for that very group earlier |
| AutoCommit.CommitsPendingIff | app/src/context/MarmotContext.tsx:696-735 | a fired timer commits exactly the queued pubkeys that have a leaf, whatever leave or tree change comes before its fetch, iff its array is still the group's queue |
| AutoCommit.SnapshotIff | app/src/context/MarmotContext.tsx:691-725 | over every run from a fire to its fetch, the committed entries are the queue at the fire plus the leaves enqueued while its array was the queue; the array is still the queue iff no step replaced it |
| AutoCommit.CommitIsOfItsFetch | app/src/context/MarmotContext.tsx:179-243 | over every run from a fetch to the success of its commit, the commit is the one computed by that fetch, and if the array was the queue then, everyone it removes is still queued |
| AutoCommit.OneCommitPerEpoch | app/src/context/MarmotContext.tsx:226-242 | of two commits of one group in flight, the success of one leaves the other unable to succeed |
| AutoCommit.StaleOnlyCommitsNothing | app/src/context/MarmotContext.tsx:192-210 | a fetch changes no group itself and starts a commit iff some queued pubkey has a leaf |
| AutoCommitRuns.RejoinedIsRemovedAgain | app/src/context/MarmotContext.tsx:680-743 | a run from the initial state in which a member that rejoined is removed again with nothing queued |
| AutoCommitRuns.StaleAdminStays | app/src/context/MarmotContext.tsx:222-225 | a run from the initial state that drops a queued admin without a leaf and leaves it an admin |
| AutoCommitRuns.LaterLeaveIsCommitted | app/src/context/MarmotContext.tsx:696-725 | a run from the initial state in which a leave enqueued after the fire is committed with it |
| AutoCommit.StepSound | app/src/context/MarmotContext.tsx:680-743 | every step keeps queues, timers and commits consistent: each array, fired timer and commit holds entries of its own group only |
| AutoCommit.OneTimerPerGroup | app/src/context/MarmotContext.tsx:686-742 | in every reachable state a group has at most one live timer, due 5000 ms after its latest enqueue |
| AutoCommit.LiveTimerIff | app/src/context/MarmotContext.tsx:686-742 | in every reachable state a group has a live timer iff the latest of its enqueues, fires and teardowns was an enqueue, and it is due 5000 ms after that |
| AutoCommit.EnqueueArms | app/src/context/MarmotContext.tsx:686-742 | after a leave is enqueued the group has exactly one timer, due 5000 ms later, and the other groups keep theirs |
| AutoCommit.FiresAfterSilence | app/src/context/MarmotContext.tsx:686-742 | in every reachable state a timer can fire iff its group's latest enqueue is 5000 ms ago or more |
| AutoCommit.FireEffect | app/src/context/MarmotContext.tsx:691-703 | a fire forgets the timer and waits for the group with a reference to the queue iff something is queued |
| AutoCommit.FailureEffect | app/src/context/MarmotContext.tsx:179-243 | failures are forgotten and change no group, queue or timer; what went through is no longer in flight |
| AutoCommit.FiltersKeepOrder | app/src/context/MarmotContext.tsx:222-734 | filtering the queue and the admin list keeps the rest in order |
| AutoCommit.TeardownKeepsQueues | app/src/context/MarmotContext.tsx:1493-1509 | a teardown clears exactly its groups' timers and leaves every queue as it was |
| AutoCommit.SnapshotSeesLaterPushes | app/src/context/MarmotContext.tsx:696-725 | a leave enqueued while the fired array is still the queue is part of the commit |
| AutoCommit.RemovalScheduler.EnqueueLeave | app/src/context/MarmotContext.tsx:680-743 | pushes in place and re-arms the group's timer, as the step says |
| AutoCommit.RemovalScheduler.TimerCallback | app/src/context/MarmotContext.tsx:691-703 | forgets the timer and starts a fetch iff something is queued |
| AutoCommit.RemovalScheduler.OnCommittedCallback | app/src/context/MarmotContext.tsx:726-734 | filters the live queue by pubkey and drops it when empty |
| AutoCommit.RemovalScheduler.FireAutoCommit | app/src/context/MarmotContext.tsx:179-231 | drops stale entries, then makes one commit with all removals and the admin update |
| AutoCommit.RemovalScheduler.CommitReturns | app/src/context/MarmotContext.tsx:228-242 | success applies the proposals and filters the queue; failure changes nothing |
| AutoCommit.RemovalScheduler.Cleanup | app/src/context/MarmotContext.tsx:1493-1507 | the loop over subscriptions clears their timers only |
| AutoCommit.Partition | app/src/context/MarmotContext.tsx:189-220 | the loop splits the pubkeys into departing and stale and collects every leaf of the departing |
| ChatView.ReconcileRows | app/src/context/ChatStoreContext.tsx:128-134 | for any view and storage, the exact rows shown, sorted; with unique ids on both sides, unique ids and a row iff it is authoritative (storage's, else the view's) and not tombstoned |
| ChatView.ReconcileIdempotent | app/src/context/ChatStoreContext.tsx:128-134 | for any view, reconciling twice with the same rows changes nothing more, order included |
| ChatView.OlderSnapshotLeavesNoTrace | app/src/context/ChatStoreContext.tsx:536-546 | for any view, going through an older snapshot whose ids are known to the newer one gives the same rows |
| ChatView.SortStable | app/src/context/ChatStoreContext.tsx:133 | the sort by createdAt keeps the order of messages of one instant |
| DeleteProtocol.DeletedStaysAbsent | app/src/context/ChatStoreContext.tsx:204-246 | with atomic reconciles, a published and tombstoned message is absent at the end and in every later state while tombstoned |
| DeleteProtocol.DeleteOutcome | app/src/context/ChatStoreContext.tsx:204-246 | with split reads it is absent at the end, and for good iff no load still in flight returned it alive; such a load was in flight at the start or began before the tombstone |
| DeleteProtocol.StaleReadBringsBack | app/src/context/ChatStoreContext.tsx:204-246 | a load that begins while the delete of a stored message is published, applied afterwards, shows the message again although its row is tombstoned |
| DeleteProtocol.AbsentForeverIff | app/src/context/ChatStoreContext.tsx:536-546 | an absent message can come back iff storage or a load in flight holds a live row of it |
| DeleteProtocol.ReconcileAbsent | app/src/context/ChatStoreContext.tsx:128-134 | a view without an id gains it from a reconcile iff storage holds a live row |
| DeleteProtocol.OthersAreUnaffected | app/src/context/ChatStoreContext.tsx:204-346 | over any run, dropping every step of a delete or an edit of one message makes no difference to the view, storage and loads in flight as to any other message |
| DeleteProtocol.DeleteTouchesNoOther | app/src/context/ChatStoreContext.tsx:204-246 | after a delete with any activity at its awaits, every other message is live in storage, shown, and shown by a later reconcile iff it would be without the delete |
| DeleteProtocol.TombstoneTouchesOnlyIts | app/src/lib/marmot/chatPersistence.ts:505-509 | tombstoning changes the flag of the rows of that id and nothing else; where ids are unique, the one row |
| DeleteProtocol.OneRemovalIsNotEnough | app/src/context/ChatStoreContext.tsx:231-240 | without the second removal a reconcile in the publish window leaves the message visible iff storage held it alive; with it, never |
| DeleteProtocol.FailedDeleteRestores | app/src/context/ChatStoreContext.tsx:141-147 | for any view that held the snapshot, a failed publish with nothing in between restores the view as a multiset iff exactly one row had its id; the result is sorted |
| DeleteProtocol.SecondFailedDeleteLosesARow | app/src/context/ChatStoreContext.tsx:204-246 | a run whose failed delete doubles a message, and the next failed delete of it, which keeps one row of two |
| DeleteProtocol.PutBackUnique | app/src/context/ChatStoreContext.tsx:145-147 | the unchecked append keeps ids unique iff the id is not in the view |
| DeleteProtocol.FailedDeleteAfterReconcile | app/src/context/ChatStoreContext.tsx:241-245 | after a reconcile in the window the rolled-back view has unique ids iff storage held no live row |
| DeleteProtocol.FailedDeleteAfterWindow | app/src/context/ChatStoreContext.tsx:204-246 | after any window, split reads included, the rolled-back view has unique ids iff the view before it had, and no event of the window brought the message back with none after it taking it out |
| DeleteProtocol.PresenceOverRun | app/src/context/ChatStoreContext.tsx:204-246 | over any run from a view without an id, the id is shown at the end iff some event brought it in and none after that took it out |
| DeleteProtocol.DoubledRowSurvives | app/src/context/ChatStoreContext.tsx:128-134 | a doubled row stays doubled through a reconcile with a live stored row |
| DeleteProtocol.FailedEditRestores | app/src/context/ChatStoreContext.tsx:149-155 | for any view, rolling an edit back restores it position by position iff every row of the id was the snapshot, as it is in a view with unique ids |
| DeleteProtocol.FailedEditMergesDoubledRows | app/src/context/ChatStoreContext.tsx:149-155 | on a doubled message whose rows differ, a failed edit makes both rows the first |
| DeleteProtocol.EditShowsWhatItRead | app/src/context/ChatStoreContext.tsx:332-341 | the close of an edit shows the row it read wherever the id was shown, nothing if that row is tombstoned, leaves the view alone if it read no row, and touches no other message |
| DeleteProtocol.EditAgreesIff | app/src/context/ChatStoreContext.tsx:332-341 | when view and storage agree on the message after the close: with a row read and the message shown, iff what storage shows has not changed since the read; otherwise iff neither shows it, or the read had no row and the view shows just the row storage has come to hold |
| DeleteProtocol.EditOfUnstoredMessage | app/src/context/ChatStoreContext.tsx:332-341 | an edited message that is not stored stays shown and disagrees with storage, although storage has not changed |
| DeleteProtocol.FailedEditShowsSnapshot | app/src/context/ChatStoreContext.tsx:342-346 | the rollback of an edit puts the old row back over everything that happened to it and touches no other message |
| DeleteProtocol.SendRumorSafe | app/src/context/ChatStoreContext.tsx:62-78 | at most four sends and three commits; succeeds iff one of the four is accepted and all before it were cleared by a commit |
| DeleteProtocol.GroupThread.PerformGroupDelete | app/src/context/ChatStoreContext.tsx:204-246 | refused without snapshot or for another sender; otherwise the exact run of view and storage changes for every outcome |
| DeleteProtocol.GroupThread.PerformGroupEdit | app/src/context/ChatStoreContext.tsx:269-346 | refused without snapshot or for another sender; otherwise the exact run of view and storage changes for every outcome of publish, durable apply, companion and re-read, with other activity at every await |
| WalledGarden.AllowedMeans | app/src/lib/walledGarden.ts:53-81 | who passes: a non-empty peer other than oneself that is a member of some group or known, in any letter case |
| WalledGarden.IsAllowedDmSender | app/src/lib/walledGarden.ts:53-81 | the nested loops decide exactly that |
| Contacts.BlockSurvivesRun | app/src/lib/contacts.ts:97-303 | a blocked contact stays blocked over every run without an unarchive of its exact key or a purge of it |
| Contacts.BlockedInEveryCase | app/src/lib/blockedPeers.ts:61-121 | and is denied under every spelling of its key |
| Contacts.UnarchiveUnblocksIff | app/src/lib/contacts.ts:293-303 | unarchiving a key leaves the peer blocked iff another spelling is archived |
| Contacts.ArchiveBlocksIff | app/src/lib/contacts.ts:281-291 | archiving blocks an unblocked peer iff the key is stored in exactly that spelling |
| Contacts.AddOutcomeIff | app/src/lib/contacts.ts:561-597 | what adding by npub answers, from the peer's state: active exists, archived in every spelling is blocked, unknown is added; a refusal changes nothing, an added peer is stored, not blocked and not pending |
| Contacts.RememberEffect | app/src/lib/contacts.ts:97-119 | remembering changes the entry of that exact key only: seen again, or new |
| Contacts.RememberPendingEffect | app/src/lib/contacts.ts:149-180 | an acknowledgement sees every stored spelling again and no other entry, or makes a pending one |
| Contacts.FlagEffects | app/src/lib/contacts.ts:199-303 | confirming clears every spelling, archiving and unarchiving set the exact key, field by field |
| Contacts.PurgeEffect | app/src/lib/contacts.ts:626-635 | a purge keeps exactly the entries that pass the gate, unchanged |
| Contacts.ReadEntry | app/src/lib/contacts.ts:50-75 | what a read makes of a stored record with missing or empty fields |
| Contacts.BecomesPendingIff | app/src/lib/contacts.ts:149-180 | a step makes a peer pending iff it is a pairing admission while no spelling of the key is stored |
| Contacts.PendingNeedsAdmission | app/src/lib/contacts.ts:97-303 | over every run, a newly pending peer was admitted that way at some moment |
| Contacts.PendingSurvivesRun | app/src/lib/contacts.ts:149-269 | a pending peer stays pending until a confirmation in some spelling or a purge |
| Contacts.ConfirmConfirms | app/src/lib/contacts.ts:199-222 | a confirmation in any spelling confirms every spelling and changes no block |
| Contacts.TimesOverRuns | app/src/lib/contacts.ts:97-180 | while an entry is kept, firstSeenAt never changes and lastSeenAt never decreases |
| Contacts.LoadBlockedPeers | app/src/lib/blockedPeers.ts:61-70 | the loop collects exactly the blocked peers |
| Contacts.IsAllowedDmSenderComposite | app/src/lib/blockedPeers.ts:113-121 | allowed iff the gate admits the peer and no spelling of it is blocked |
| Contacts.PurgeKeys | app/src/lib/contacts.ts:626-635 | the deleting loop keeps exactly the allowed keys and counts the others |
| Contacts.ContactStore.RememberContact | app/src/lib/contacts.ts:97-119 | the stored map after the call reads as the specified step |
| Contacts.ContactStore.RememberPendingContact | app/src/lib/contacts.ts:149-180 | likewise, bumping every spelling or admitting as pending |
| Contacts.ContactStore.ConfirmContact | app/src/lib/contacts.ts:199-222 | likewise, writing only if something changed |
| Contacts.ContactStore.ArchiveContact | app/src/lib/contacts.ts:281-291 | likewise, exact key only |
| Contacts.ContactStore.UnarchiveContact | app/src/lib/contacts.ts:293-303 | likewise, exact key only |
| Contacts.ContactStore.AddContactByNpub | app/src/lib/contacts.ts:561-597 | invalid, self, existing, blocked or added, with the same precedence; only the last changes the store and the known peers |
| Contacts.ContactStore.PurgeStrangerContacts | app/src/lib/contacts.ts:620-639 | the contacts half: removes exactly the strangers' keys and counts them |
| KnownPeers.CollectMembers | app/src/context/MarmotContext.tsx:900-908 | the nested loops collect every group member but oneself |
| KnownPeers.KnownPeersStore.RememberKnownPeer | app/src/lib/knownPeers.ts:77-88 | adds the lower-case key once; the list only grows |
| KnownPeers.KnownPeersStore.RememberKnownPeers | app/src/lib/knownPeers.ts:100-119 | one write adds exactly the lower-case forms of the non-empty keys |
| PurgeSafety.MemberContactsAreNeverPurged | app/src/context/MarmotContext.tsx:840-953 | once a peer was a group member in a migration or maintenance pass, no later purge deletes its contact, counters or cached card, whatever groups it leaves and whenever the app crashes |
| PurgeSafety.SurvivesIff | app/src/lib/marmot/chatPersistence.ts:715-750 | for the asynchronous stores too, iff no purge that judged earlier is still about to delete the entry and no migration still runs under that very key |
| PurgeSafety.MetTooLate | app/src/lib/marmot/chatPersistence.ts:715-750 | from a device with no purge in flight: a purge judges, the peer is met, and the purge deletes the entry of a peer who is allowed by then |
| PurgeSafety.FlagMeansPurged | app/src/context/MarmotContext.tsx:865-886 | over runs of one user, whose key may be unknown after each boot, in which gains pass the gate and leavers were remembered: whenever the flag is found set, threads and reactions hold no stranger's entry, and a synchronous store holds none iff every one it began with was judged by a purge that was written |
| PurgeSafety.StrangersStayUntilSaved | app/src/lib/contacts.ts:622-660 | over every such run, a stranger's entry of a synchronous store remains iff it was there and no purge that judged it a stranger's was written |
| PurgeSafety.JudgedIff | app/src/context/MarmotContext.tsx:905-930 | every written purge of the store judges every stranger but the user itself, whether or not the user's key was known to it |
| PurgeSafety.SwallowedWriteIsFinal | app/src/context/MarmotContext.tsx:865-886 | a full migration with a swallowed failure ends like one without iff the failed write had nothing to take away |
| PurgeSafety.InterruptedMigrationsConverge | app/src/context/MarmotContext.tsx:840-888 | any number of interrupted migrations followed by a full one ends as one full migration |
| PurgeSafety.PassEffect | app/src/context/MarmotContext.tsx:840-888 | what a boot leaves on disk, for any peer and any entry |
| PurgeSafety.BootOrder | app/src/context/MarmotContext.tsx:866-873 | the order of the purges within a boot |
| PurgeSafety.PassIsARun | app/src/context/MarmotContext.tsx:854-886 | the disk states of a migration boot are those of a run of the step system, its purges in any order, overlapping and failing or not; the flag can be set iff every purge has returned |
| PurgeSafety.MigrationEffect.Boot | app/src/context/MarmotContext.tsx:840-886 | the effect cut short after any number of steps, with any purges failing and a slow sweep throwing, leaves the specified disk state, the flag last |
| PurgeSafety.MigrationEffect.PurgeKind | app/src/lib/unreadStore.ts:686-706 | the loop over a store keeps exactly the admitted peers' entries |
| ContactCache.LastWriterWins | app/src/lib/contactCache.ts:33-147 | any interleaving of both writes ends, per key, with the earliest write among those of greatest updatedAt, unless storage was at least as late |
| ContactCache.OrderIsIrrelevant | app/src/lib/contactCache.ts:33-147 | with distinct time stamps per key neither order nor repetition matters |
| ContactCache.ReportIsRightIff | app/src/lib/contactCardImport.ts:52-69 | `cached` is right for every cache iff the key is in lower case |
| ContactCache.AvatarsSurviveIff | app/src/lib/contactCardImport.ts:52-69 | an import keeps every stored avatar for every cache iff the key is in lower case or the card has no time |
| ContactCache.CardImportsAreRight | app/src/lib/contactCardImport.ts:52-69 | for the key of any accepted card, `cached` is right and no avatar is lost, whatever the cache |
| ContactCache.ImportEffect | app/src/lib/contactCardImport.ts:52-69 | under a lower-case key a later card gives the entry its nickname and time and keeps the avatar; any other changes nothing; no other entry is touched |
| ContactCache.ContactCacheStore.WriteContactEntry | app/src/lib/contactCache.ts:33-45 | the last-writer test decides; a write that goes through also remembers the contact |
| ContactCache.ContactCacheStore.WriteContactEntryNeutralized | app/src/lib/contactCache.ts:126-147 | writes under the folded key without touching contacts and reports won, landed and avatar truthfully |
| ContactCache.ContactCacheStore.ImportCard | app/src/lib/contactCardImport.ts:52-69 | carries the stored avatar over; its report equals the last-writer test for lower-case keys |
| ContactCache.ContactCacheStore.PurgeStrangerContacts | app/src/lib/contacts.ts:612-663 | both halves: the strangers go from contacts and cached profiles, each half as far as its write goes through, and the count covers both |
| InvitationQueue.EveryRunIsBounded | app/src/lib/pendingInvitations.ts:131-186 | every run from empty keeps ids unique, at most 8 per inviter and at most 256 in all |
| InvitationQueue.EnqueueEvicts | app/src/lib/pendingInvitations.ts:138-165 | an enqueue loses at most one entry: an oldest of the inviter's at its cap, else an oldest of all when full |
| InvitationQueue.CrossEvictionNeedsManyInviters | app/src/lib/pendingInvitations.ts:154-162 | another inviter's entry is evicted only while at least 32 inviters other than the newcomer's are queued |
| InvitationQueue.FloodsAreContained | app/src/lib/pendingInvitations.ts:131-186 | over every run with at most 32 inviters an entry stays whatever the others send |
| InvitationQueue.OldestIsLastOfTies | app/src/lib/pendingInvitations.ts:148-160 | the reduction picks an entry of least receivedAt, and among equally old ones the one queued last |
| InvitationQueue.SnapshotIff | app/src/lib/pendingInvitations.ts:94-118 | over every run with reloads and failing writes, the snapshot is what is stored iff the last load saw storage or found it empty, or a listing or a changing write has happened since |
| InvitationQueue.RefreshesIff | app/src/lib/pendingInvitations.ts:131-186 | an enqueue or removal writes iff it changes what is stored |
| InvitationQueue.SnapshotIsStorage | app/src/lib/pendingInvitations.ts:202-211 | in a browser, where every load reads storage, it always is |
| InvitationQueue.PendingInvitations.EnqueuePendingInvitation | app/src/lib/pendingInvitations.ts:131-169 | storage and snapshot take the specified step from any state; a bounded queue stays bounded |
| InvitationQueue.PendingInvitations.RemovePendingInvitation | app/src/lib/pendingInvitations.ts:176-186 | likewise for removal |
| InvitationQueue.PendingInvitations.ListPendingInvitations | app/src/lib/pendingInvitations.ts:113-118 | listing makes the snapshot equal to storage, whatever it was |
| Bell.RingsCountDistinctIds | app/src/lib/directMessageNotifications.ts:80-159 | for fixed gates a peer's rings are its distinct admissible ids plus its admissible deliveries without an id |
| Bell.OrderIsIrrelevant | app/src/lib/directMessageNotifications.ts:80-159 | order and repetition of deliveries do not change a peer's rings |
| Bell.HeldBackIsStillRemembered | app/src/lib/directMessageNotifications.ts:94-104 | holding the bell back for a pending or visible peer changes neither the seen-sets nor how often it is remembered |
| Bell.Kind4Effect | app/src/lib/directMessageNotifications.ts:80-105 | from the fields of the event: what it takes, when the peer is remembered, and when the bell rings |
| Bell.Kind1059Effect | app/src/lib/directMessageNotifications.ts:117-159 | likewise for a gift wrap |
| Bell.HandlersTakeSides | app/src/lib/directMessageNotifications.ts:80-159 | the two handlers are the two orders of checks that the next rows compare |
| Bell.OrdersRingAlike | app/src/lib/directMessageNotifications.ts:90-145 | while last-read times only advance, dedup before last-read and last-read before dedup ring the same deliveries |
| Bell.OrdersRingAlikeIff | app/src/lib/directMessageNotifications.ts:90-145 | for any run, they ring the same deliveries iff no delivery finds unread a message that every earlier delivery of it found read |
| Bell.OrdersDifferAfterReset | app/src/lib/directMessageNotifications.ts:90-145 | a family of runs, one per message and time, in which a last-read time is taken back and they do not |
| Bell.DroppedLeaveNoTrace | app/src/lib/directMessageNotifications.ts:83-89 | a delivery dropped by the gate never blocks a later admitted one |
| Bell.Notifications.Kind4Handler | app/src/lib/directMessageNotifications.ts:80-105 | the handler takes the specified step: slot before last-read test |
| Bell.Notifications.Kind1059Handler | app/src/lib/directMessageNotifications.ts:117-159 | the handler takes the specified step: last-read test before slot |
| Stagger.RoundIsNearest | app/src/components/ProfileHealWatcher.tsx:217 | rounding gives the nearest integer, halves up, and nothing else |
| Stagger.Gaps | app/src/components/ProfileHealWatcher.tsx:213-219 | consecutive delays are floor(30000/n) or ceil(30000/n) apart |
| Stagger.SlicesAreBounded | app/src/components/ProfileHealWatcher.tsx:213-219 | no 1000 ms slice holds more than ceil(n/30) sends |
| Stagger.SentIff | app/src/components/ProfileHealWatcher.tsx:206-211 | a schedule is sent iff it is active, its next attempt has come, its first is less than thirty days ago, and its contact is not archived in any spelling |
| Stagger.ArchivedNeverCount | app/src/components/ProfileHealWatcher.tsx:190-211 | an archived contact's schedule changes neither the sends nor any delay |
| Stagger.PlansAreSpread | app/src/components/ProfileHealWatcher.tsx:213-219 | both planners: up to five sends go at once; more start at 0, never go back, stay within 30000 ms, keep the gaps and fill no 1000 ms beyond ceil(n/30) |
| Stagger.SendTimes | app/src/components/ProfileHealWatcher.tsx:213-219 | up to five sends go at 0; else the i-th of n at the nearest millisecond to i/n of 30000 |
| Stagger.PlansKeepOrder | app/pages/profile.tsx:101-113 | both planners keep the order of what they are given |
| Stagger.AnnouncedIff | app/pages/profile.tsx:101-113 | the fan-out announces to a key iff some contact of that key, in any spelling, is not archived |
| Stagger.AnnouncedOncePerContact | app/pages/profile.tsx:101-113 | the number of sends to a key is the number of its unarchived contacts, all spellings counted |
| Linkify.SplitLinks | app/src/lib/linkify.ts:8-40 | tokens join to the input, no text token contains a URL, every link is the maximal URL at its place minus its longest punctuation suffix, and every URL lies in some link's |
| Linkify.LinkKeepsPrefix | app/src/lib/linkify.ts:17-21 | a link keeps its http:// or https:// prefix |
| Linkify.MatchIff | app/src/lib/linkify.ts:5-13 | a URL is one of the two schemes and as many as possible, at least one, of the units that are no white space, angle bracket or quote |
| Linkify.ClassesAre | app/src/lib/linkify.ts:5-6 | the units a URL may contain and the punctuation cut off it |

## Left out

- Signatures, hashing, NIP-44 and MLS internals: signing and verifying are parameters, and an MLS commit is a step that applies its proposals to the epoch they were computed from or fails.
- npub decoding and date rendering are uninterpreted functions.
- Letter case is ASCII case: `toLowerCase` on other letters is not modelled, because every key compared is hex.
- ContactCard.EncodeCard: takes integers; a JavaScript number that is not an integer is rejected by the same guard for created_at and is not representable here. A signer's own created_at is any integer.
- Storage is a value with a write that may fail and change nothing; JSON parsing of corrupt storage, quota mechanics and writes from other browser tabs are not modelled. Availability of storage does not change during a call.
- AutoCommit.RemovalScheduler.FireAutoCommit: the library import between the fetch and the commit is part of the fetch step; there is no liveness claim, since a failed commit does not re-arm a timer.
- ChatView.ReconcileIdempotent: requires unique ids in storage, which appending to storage guarantees (app/src/lib/marmot/chatPersistence.ts:330).
- DeleteProtocol.TombstoneTouchesOnlyIts: the source updates the first row of an id, the model all of them; appending keeps ids unique in storage (app/src/lib/marmot/chatPersistence.ts:330), where this is the same.
- DeleteProtocol.OthersAreUnaffected: a replacement by other activity keeps the id of the row it replaces, as every replacement in the source does.
- DeleteProtocol.GroupThread.PerformGroupDelete: revision lookup and rumor building are one parameter that may fail; revision numbers are not modelled.
- `rememberContactsFromGroups` is a run of `Contacts.ContactStore.RememberContact` calls and has no member of its own.
- Map keys are iterated in an arbitrary order; no result depends on it.
- PurgeSafety.MemberContactsAreNeverPurged: assumes the write of the pass goes through, that the identity does not become the peer's, and that no migration is still running under the peer's own key.
- PurgeSafety.FlagMeansPurged: one user per run; what a change of identity does to the entries of two users' gates is not stated.
- PurgeSafety.MigrationEffect.Boot: groups do not change while the effect runs; the step system `PurgeSafety.Step` covers changing groups.
- Bell.RingsCountDistinctIds: an id stands for one message (same sender and time), which is what event ids promise.
- Bell.Notifications.Kind1059Handler: unwrapping a gift wrap is a parameter that yields a rumor or fails.
- Stagger.Delay: exact arithmetic; floating-point error of the division is not modelled.
- Stagger.PlanDueSweep: only the sends; which schedules are created is not modelled.
- Linkify.SplitLinks: the regular-expression engine is modelled by its greedy leftmost meaning for these two patterns.
- React rendering, relay input and output, image handling, signer connections, invite banners, group selectors, feature flags and polls: no state worth proving.
