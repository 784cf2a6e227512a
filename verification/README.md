# Gouda Matrix adapter: a verified model

This project models the Matrix adapter of the Gouda chat client in Dafny and proves what its caches and state
machines promise. `dafny verify dfyconfig.toml` checks everything.

The adapter turns a Matrix room's event stream into chat messages. Events arrive newest first, in pages. Edits,
reactions, redactions and poll events arrive before the message they relate to, so they are stashed in hash maps
until their target is reached; the message is then assembled from everything stashed. Around this core are small
state machines: an executor that forwards read markers and other room changes without repeating them, a store of
downloaded files, an encrypted cache of users and sync token, the device verification flow, the notification
settings, and the endless background sync.

| module | what it models |
|---|---|
| `Polls` | polls: folding responses, replacing the content, and the one-off assembly from all relations |
| `Timeline` | the reference: room events, the message each produces, and how a message must look given the events seen |
| `Replies` | what is to be seen of the message of each kind of event, in terms of the events seen before it alone |
| `MemoryCache`, `RoomCache` | the per-message and per-room caches, proved to mirror the events seen |
| `PollAgreement` | the one-off poll assembly against the cached one |
| `Fetch` | the paging loop with its limit |
| `RoomRuns` | any sequence of fetches, passes and removals on one room |
| `Redecryption`, `EncryptedEvents` | retrying events that could not be decrypted; which events wait, and what the application is told of each |
| `Application`, `PassDisplay` | what the application shows after one redecrypted event and after a whole pass, against how the messages must look |
| `ReactionIndex`, `ReactionSteps` | the reaction index under interleaved tasks, one step per lock; an operation alone is the room's method |
| `Events` | read-marker deltas, duplicate suppression, the replay queue |
| `Assets` | the two-file asset store, one step per file operation |
| `Codec`, `ProtoCache` | length-prefixed frames, encrypted files, the users list, save and start |
| `SaveOrder` | saving against a running sync and the event executor, with a crash or a full disk possible at every step; a save alone is the cache's method |
| `Staleness` | which cached users lack a change the sync token is past, in memory and on disk, and what brings it back |
| `Verification` | the two nested verification loops over one action queue |
| `Utils`, `Notifications` | list comparison and map merging; settings events that rebuild the settings |
| `Session` | the background sync's retries, refreshes, stop and status log |
| `Collections` | listings of sets, sorting and hash-map iteration |

## Conventions

- A hash map is iterated in an arbitrary order: `Collections.Iterate` returns any listing of the keys. Results that
  need distinct timestamps say so (`DistinctTimes`, `DistinctPollTimes`).
- The Matrix SDK, message content generation, the protobuf and JSON encodings, key derivation and the cipher are
  abstract functions. Their laws (`Codec.Lawful`, `ProtoCache.Opens`, `ProtoCache.DetectsCuts`, `ProtoCache.Faithful`,
  `Assets.Faithful`, `Redecryption.Lawful`) are hypotheses of the theorems that use them. `DetectsCuts` says that the
  cipher, which authenticates, opens no ciphertext that was cut. `Codec.Lawful` bounds an encoded message by
  2^64 bytes, so the conversion between `usize` and `u64` loses nothing.
- A file write truncates the file first. The encrypted files of the persistent cache may be left cut short by a crash
  or by a failed write, on a full disk for instance (`ProtoCache.Disk`, `SaveOrder.File`).
- The application is not part of the repository. It is taken to follow its events: a change replaces the fields it
  names, a removal takes the message away, a reaction is added (`Application.Follow`, `Notifications.Follow`).
- Whether reads, removals and writes of files (with moves) always work is a parameter of the asset directory
  (`Assets.Directory`); without it each of them may fail at any time.
- A poisoned lock is taken to be impossible. Clocks, random salts and nonces, the answers of the server and of the
  SDK, and the outcomes of disk writes are parameters or nondeterministic choices.
- The SDK gives a loaded event its own time, by which the one-off poll assembly sorts, while the cache sorts by the
  event's time. `PollAgreement.KeepsOrder` is the hypothesis that the former does not turn the order of the latter
  round. What the SDK loads as the relations of a poll may include any other events, such as those of a poll in the
  thread below it.
- An event id names one relation (`RelationIdsUnique`), however often the relation is seen.
- A verification run is given by a schedule of turns; a turn on an empty action queue means that the sender was
  dropped, and a turn on an empty stream means that the stream ended.

## Where the code falls short of its documentation

The model keeps the code's behaviour. Each point has a lemma.

- A poll start of unknown kind makes the processing of its event fail, although the doc comment in
  `memory_cache.rs` names only a poisoned lock. It ends a fetch and hides every older message
  (`Fetch.UnknownPollHidesOlder`); a fetch can use its whole timeline iff every poll in it has a known kind
  (`Fetch.WholeTimelineUsableIff`), and `Fetch.ErrorDeliveredIff` says when the application is told. It also ends a
  redecryption pass (`Redecryption.RetryDecryption` says exactly when), the event being gone from the encrypted set
  without any notice to the application (`Redecryption.UnknownPollLost`).
- A decrypted event that cannot be deserialised stays in the encrypted set and sends a removal on every pass
  (`Redecryption.MalformedOnEveryPass`, exact condition in `Redecryption.SecondPassSilentIff`).
- The one-off poll assembly never looks at what a loaded event relates to. It takes any poll start for a replacement,
  any end for an end of this poll, and any response for a vote, for instance those of a poll in the thread below the
  poll; the cache does not (`PollAgreement.OtherPollOverwrites`, `PollAgreement.OtherEndCompletes`,
  `PollAgreement.OtherResponseVotes`). It also clears the voters at a replacement, while the cache counts all responses
  on the newest ballot. `PollAgreement.BallotsAgreeIff` and `PollAgreement.ContentsAgreeIff` say, in terms of what is
  loaded, exactly when the two show the same; `PollAgreement.AssemblersAgree` compares the voters when nothing of
  another poll counts.
- The response event handler applies a response on top of a poll assembled with it. For the latest response that is
  harmless (`Polls.ReapplyLatestUnchanged`), for an older one it takes a newer vote back (`Polls.OlderResponseTakesBack`,
  `Polls.OlderResponseExample`, exact condition in `Polls.ReapplyUnchangedIff`).
- The replacement event handler replaces the content of a poll that was just assembled from all that is loaded. That
  drops the votes cast since, and if a newer replacement is loaded already it also brings the older question back, votes
  or not (`PollAgreement.OlderReplacementComesBack`). It is harmless exactly if the newest start loaded asks the same
  and no response loaded since leaves a vote (`PollAgreement.ReplaceAssembledUnchangedIff`, for any poll
  `Polls.ReplaceUnchangedIff`).
- After a redecryption the application is sent only a message's content, a removal or a reaction. A decrypted message
  that has details, an edit, or reactions that did not reach the application before is then shown without them
  (`Application.DecryptedShownIff`), and the message that a decrypted edit, poll event or redaction relates to is not
  refreshed (`Application.RelatedShownIff`, exactly when that is harmless; `Application.FirstEditNotShown`). For a whole
  pass `PassDisplay.PassShownIff` and `PassDisplay.DecryptedInPassIff` say exactly when the display is right; of a
  message and its edit in one pass the hash map's order decides which content is shown, and neither order shows the edit
  as one (`PassDisplay.MessageThenEdit`, `PassDisplay.EditThenMessage`).
- The comment in `save` promises that the stored users are never behind the stored sync token. The order of the two
  snapshots gives less: the users on disk are no older than those in memory when the token was set
  (`SaveOrder.SafeAlways`), unless a token is set between the snapshots or a crash or a full disk cuts the users file
  short (`SaveOrder.CutShortWriteUnsafeIff`, `SaveOrder.CutShortExample`). A cached user can lack a change before the
  token all the same. `Staleness.SaveIsBehindIff` says of any save exactly when it leaves the disk so, and
  `Staleness.BehindBecause` why: the change lags, since the token is set without waiting for the event executor
  (`Staleness.LagExample`), it is overtaken by a token between the snapshots (`Staleness.RaceExample`), or it was lost
  before. Without these the disk is never behind (`Staleness.NeverBehind`). A file that was cut short is not behind: no
  user is cached then, and one that is not cached is fetched when asked for.
- The comment also relies on the stream to deliver again what the stored users lack. The first sync after a start asks
  from the stored token, but the event handlers are set up only when it is over, so what it delivers reaches nobody
  (`Staleness.SyncLosesIff`, `Staleness.FirstSyncLosesIff`, at a concrete run `Staleness.FirstSyncExample`). Exactly which
  steps lose a change and which bring it back is `Staleness.LostIff`: a restart loses what the disk lacks before its
  token (`Staleness.RestartLosesIff`), and a change stays lost until the user is fetched or compared with the server's,
  or a restart resumes from before it, finds it on disk or finds the user gone (`Staleness.LostUntilIff`). Till then
  every save carries it to the disk (`Staleness.LostIsSaved`).
- An asset whose info file cannot be removed, while its data file can, is left with an info naming a missing file
  (`Assets.InfoWithoutData`, exact condition in `Assets.AssetManager.DeleteAssetAndInfo`).
- Two assets share a file name exactly in the cases of `Assets.Clash`; removing the one then can break the other
  (`Assets.ClashBreaksOther`).

## Model

| member | source | states |
|---|---|---|
| `Polls.ReplaceContent` | src/polls.rs:81-91 | the poll afterwards, in place: on an unknown kind the limit, options and question are already replaced and the type is kept |
| `Polls.ClearUserAnswers` | src/polls.rs:109-113 | the user is gone from every option, the order of the other voters is kept |
| `Polls.AddAnswer` | src/polls.rs:93-107 | the user's old votes are gone, and there is a vote, listed last, on each option that is the first with its id and whose id is at a place before `max_selections` among the answers |
| `Polls.AnsweredVotes` | src/polls.rs:93-107 | the same for the operation as a function, option by option: who is listed, and in which order |
| `Polls.FoldClosedForm` | src/polls.rs:93-113 | after any responses a user is listed on an option iff that user's last response names it at a place before `max_selections`, and no earlier option has its id; lists have no duplicates and are ordered by last response |
| `Polls.VoterListUnique` | src/polls.rs:93-113 | the closed form determines the voter list |
| `Polls.VotersEqualIff` | src/polls.rs:93-113 | two sequences of responses leave an option the same voters iff they leave the same users voting for it, in the same order of last responses |
| `Polls.FoldVoters` | src/polls.rs:93-113 | the options do not influence each other: the voters of each are a fold of their own |
| `Polls.FoldSplit` | src/polls.rs:93-113 | responses in two batches: the voters of the first who did not respond again, then those of the second |
| `Polls.ReapplyLatestUnchanged` | src/events.rs:1549-1553 | applying the latest response once more changes nothing |
| `Polls.ReapplyUnchangedIff` | src/events.rs:1549-1553 | applying any response once more changes nothing iff its user is the last voter of every option it names and on no other option |
| `Polls.OlderResponseTakesBack` | src/events.rs:1534-1553 | re-applying a response that its user has replaced takes the user off an option the newer one names |
| `Polls.OlderResponseExample` | src/events.rs:1534-1553 | two responses of one user, the older one re-applied: the poll shows the older one |
| `Polls.ReplaceUnchangedIff` | src/polls.rs:81-91 | replacing the content of any poll changes nothing iff the poll asks the same already and nobody has a vote |
| `Polls.EditsWithinLimit` | src/polls.rs:81-113 | over any replacements (also failing ones), responses and ends, nobody is on more than `max_selections` options |
| `Polls.AssemblePoll` | src/polls.rs:16-55 | the in-place loop computes the fold of the relations in time order, stopping at the first failing replacement |
| `Polls.AssemblySucceedsIff` | src/polls.rs:36-46 | it succeeds iff every poll start among the relations has a known kind |
| `Polls.AssemblyClosedForm` | src/polls.rs:31-52 | only the newest start, the responses after it and the presence of an end matter |
| `Timeline.RenderingDetermined` | src/memory_cache.rs:568-659 | with distinct timestamps the relations determine the message up to reaction order, whatever the hash maps' orders |
| `Timeline.ArrivalOrderIrrelevant` | src/memory_cache.rs:1348-1450 | two permutations of the same events give the same message up to reaction order |
| `Timeline.LaterEventsIrrelevant` | src/memory_cache.rs:1348-1450 | events that do not relate to a message leave its relations alone |
| `Timeline.RebuiltSame` | src/memory_cache.rs:568-576 | building again from the same original gives the same message up to reaction order |
| `Replies.ProducesIff` | src/memory_cache.rs:850-1182 | an event produces a message iff it is a room message, a redacted one, a membership change, an undecryptable event or a poll of known kind; only a poll of unknown kind breaks |
| `Replies.MessageTells` | src/memory_cache.rs:568-659 | of each kind of event: sender, time and details; the reason of the last redaction seen; the content of a newest edit; every reaction seen, with emoji and user; what the newest poll replacement asks, and whether an end was seen |
| `Replies.VotesTell` | src/memory_cache.rs:641-653 | with distinct times a user is on an option iff that user's newest answer seen names it within the limit |
| `MemoryCache.ApplyReactions` | src/memory_cache.rs:606-617 | exactly one reaction per cached annotation, in some listing |
| `MemoryCache.ApplyReplacements` | src/memory_cache.rs:619-627 | nothing without replacements, otherwise the content of one with the greatest timestamp, marked as edited |
| `MemoryCache.ApplyPollReplacements` | src/memory_cache.rs:629-639 | the ballot is that of a replacement with the greatest timestamp, even if its kind is unknown |
| `MemoryCache.ApplyPollResponses` | src/memory_cache.rs:641-653 | the answers are counted in time order on the current ballot |
| `MemoryCache.BuildPoll` | src/memory_cache.rs:594-604 | the poll is a rendering of the original with the relations the cache mirrors |
| `MemoryCache.BuildRemoved` | src/memory_cache.rs:584-592 | a removed message takes the reason of the cached redaction and no reactions |
| `MemoryCache.BuildOther` | src/memory_cache.rs:578-582 | any other message is a rendering with reactions and newest replacement |
| `MemoryCache.BuildFromOriginal` | src/memory_cache.rs:568-576 | whatever the kind of content, the result is a rendering and the original is remembered |
| `RoomCache.CachedRoom.CacheReplacement` | src/memory_cache.rs:1348-1362 | the caches mirror the events seen plus this one |
| `RoomCache.CachedRoom.CacheRedaction` | src/memory_cache.rs:1364-1376 | the same for a redaction: the last one seen counts |
| `RoomCache.CachedRoom.CacheReaction` | src/memory_cache.rs:1380-1396 | the same for a reaction, with the reaction index staying its exact inverse |
| `RoomCache.CachedRoom.CachePollReplacement` | src/memory_cache.rs:1400-1414 | the same for a poll replacement |
| `RoomCache.CachedRoom.CachePollAnswer` | src/memory_cache.rs:1418-1432 | the same for a poll response |
| `RoomCache.CachedRoom.CachePollClosing` | src/memory_cache.rs:1436-1450 | the same for a poll end |
| `RoomCache.CachedRoom.CacheAndBuildMessage` | src/memory_cache.rs:1558-1565 | the message is rendered with exactly the relations seen before, and the relations stay as they are |
| `RoomCache.CachedRoom.ProcessTimelineEvent` | src/memory_cache.rs:749-829 | for every kind of event the reply: the message, told by the events seen before, the reaction, nothing, or the failure on an unknown poll kind; the caches afterwards, and the encrypted set, which gains an undecryptable event and loses one that is decrypted and read |
| `RoomCache.CachedRoom.ProcessReadableEvent` | src/memory_cache.rs:850-1182 | the same for events that could be read: what is to be seen of each kind of message, in terms of the events seen before |
| `RoomCache.CachedRoom.StashRelation` | src/memory_cache.rs:911-940 | relations produce nothing but are remembered; a replacement without content is ignored |
| `RoomCache.CachedRoom.RemoveReactionById` | src/memory_cache.rs:1454-1486 | the index lookup gives what a scan over all reactions gives, and afterwards the caches are those of a room that never saw the reaction |
| `RoomCache.CachedRoom.RemoveReactionByEmoji` | src/memory_cache.rs:1490-1529 | all reactions of the user with the emoji are forgotten, one of them is returned, `None` iff there was none |
| `RoomCache.CachedRoom.ExtractFromMessage` | src/memory_cache.rs:1505-1511 | exactly the matching reactions leave the message and the index |
| `PollAgreement.AssemblersAgree` | src/memory_cache.rs:594-659 | if no response, end or newest start loaded is of another poll, both assemblies agree on question, type, limit, options and completion; each voter list of the one-off assembly is a suffix of the cached one, equal iff no vote before the newest replacement is by a user who did not vote again |
| `PollAgreement.BallotsAgreeIff` | src/polls.rs:16-55 | the one-off assembly succeeds iff every start loaded has a known kind; then both show the same question, type, limit, options and completion iff the newest start loaded asks what the newest start of the poll itself asks and no other poll's end is loaded without one of its own |
| `PollAgreement.ContentsAgreeIff` | src/polls.rs:16-55 | the contents are identical iff moreover, for every option, the responses loaded since the newest start leave the same votes as all responses to the poll itself |
| `PollAgreement.ReplacementsFirstIdentical` | src/polls.rs:31-52 | identical contents when every replacement precedes every response |
| `PollAgreement.ReplaceAssembledUnchangedIff` | src/events.rs:1504-1522 | the replacement handler changes nothing on the poll it assembled iff the newest start loaded asks what the handled one asks and no response loaded since that start leaves a vote |
| `PollAgreement.OlderReplacementComesBack` | src/events.rs:1504-1522 | with a newer replacement loaded, handling the older one brings the older question back although nobody voted |
| `PollAgreement.OtherPollOverwrites` | src/polls.rs:40-42 | another poll's start among the relations makes the two disagree |
| `PollAgreement.OtherEndCompletes` | src/polls.rs:46-48 | another poll's end completes the assembled poll, but not the cached one |
| `PollAgreement.OtherResponseVotes` | src/polls.rs:43-45 | another poll's response votes in the assembled poll, but not in the cached one |
| `Fetch.PositionsAre` | src/memory_cache.rs:1899-1922 | the events whose messages are sent are all that are messages, in order |
| `Fetch.ExplainedTells` | src/memory_cache.rs:1899-1922 | each message sent tells what its event and the events seen before that one say |
| `Fetch.FailedPageEnds` | src/memory_cache.rs:1875-1887 | nothing after a page that fails to load is used, and the error is that of the page unless an event broke before |
| `Fetch.FetchedTells` | src/memory_cache.rs:1983-2018 | a message can be fetched by itself iff its event is a message and every poll among its relations has a known kind; it tells what these and the events seen before say |
| `Fetch.MessagesFetcher.LoadPage` | src/memory_cache.rs:1708-1750 | the pages are used one by one; the last one says that the end is reached |
| `Fetch.MessagesFetcher.SendFinishedMessage` | src/memory_cache.rs:1955-1964 | the counter moves exactly with the messages the receiver took |
| `Fetch.MessagesFetcher.ProcessEventChunk` | src/memory_cache.rs:1899-1922 | a chunk is processed up to its end, the limit, a breaking event or a dropped receiver, and every message in that part is sent |
| `Fetch.MessagesFetcher.ProcessPage` | src/memory_cache.rs:1875-1887 | one turn of the loop keeps the correspondence between sent messages and processed events, and the cache exact |
| `Fetch.MessagesFetcher.FetchPages` | src/memory_cache.rs:1875-1887 | the loop terminates, with what was processed a prefix of the usable events, the messages sent explained by it and the cache exact, or with the error after which it stopped |
| `Fetch.MessagesFetcher.FetchUntilCompletion` | src/memory_cache.rs:1868-1897 | what was sent explains a prefix of the usable events, why it stopped is exact, and the cache holds exactly the relations seen before and those in that prefix, plus the event that broke it |
| `Fetch.MessagesFetcher.Run` | src/memory_cache.rs:1846-1866 | the messages sent are the first min(limit, taken, available) producing events, each rendered with the relations seen before it; the counter equals their number; an error is delivered iff they are fewer than limit and receiver allow and a page or event failed; the cache is exact afterwards and has seen the processed prefix, plus the event that broke it |
| `Fetch.ChunkBoundariesIrrelevant` | src/memory_cache.rs:1868-1922 | the usable events depend on the timeline alone, not on how it is cut into pages |
| `Fetch.WholeTimelineUsableIff` | src/memory_cache.rs:1046-1053 | without failing requests the whole timeline is usable iff every poll in it has a known kind |
| `Fetch.ErrorDeliveredIff` | src/memory_cache.rs:1858-1865 | the application is told of a broken fetch iff a poll in the timeline has an unknown kind and the messages before it neither reach the limit nor use up the receiver |
| `Fetch.SameMessages` | src/memory_cache.rs:1868-1922 | two fetches over the same events send the same messages up to reaction order |
| `Fetch.CarriesAllRelations` | src/memory_cache.rs:1868-1922 | if every relation is newer than its target, each message carries all its relations in the timeline |
| `Fetch.UnknownPollHidesOlder` | src/memory_cache.rs:1046-1053 | the newest poll of unknown kind hides exactly the events from it on, however large the limit |
| `Fetch.FetchMessage` | src/memory_cache.rs:1983-2018 | a single message is rendered with its fetched relations; it fails iff a relation breaks or the event produces no message; the cache is exact afterwards and has seen the relations and the event, or the relations up to the breaking one |
| `RoomRuns.Serve` | src/memory_cache.rs:286-365 | over any sequence of fetches, single fetches, redecryption passes, new reactions and removals on a room, each finds the caches exact and leaves them exact |
| `Redecryption.RetryEvent` | src/memory_cache.rs:1204-1239 | an event that still cannot be decrypted changes and sends nothing; a decrypted one sends its one resolution |
| `Redecryption.RetryDecryption` | src/memory_cache.rs:732-743 | a pass succeeds iff no selected event decrypts to a breaking one; it removes exactly the selected, decrypted, readable events and sends one resolution each, nothing for the rest; the cache has then seen the decrypted events and is exact |
| `EncryptedEvents.SelectedIff` | src/memory_cache.rs:732-743 | a pass tries the events of the encrypted set that are selected, all of them without a selection |
| `EncryptedEvents.LeftIff` | src/memory_cache.rs:765-781 | after a pass that succeeds the set holds what was not selected, did not decrypt, or decrypted to something unreadable |
| `EncryptedEvents.ProcessAll` | src/memory_cache.rs:765-829 | over any events: an id is in the encrypted set iff an undecryptable event with it was seen and no decrypted readable one after it, or it was there before and none was seen; the last undecryptable one is kept |
| `EncryptedEvents.PassTells` | src/memory_cache.rs:1204-1239 | of every event tried that decrypts the application is told exactly once, in one stretch of the log: the content the message then has, or its removal, or the reaction, given the events seen and those decrypted before |
| `EncryptedEvents.NothingElseTold` | src/memory_cache.rs:1204-1239 | a pass tells of nothing but events tried that decrypt |
| `EncryptedEvents.ToldByNextPass` | src/memory_cache.rs:732-829 | end to end: an undecryptable event, any events that do not decrypt it, and a pass over everything with keys that do: the application is told once what it has become |
| `Redecryption.SilentPassIff` | src/memory_cache.rs:1204-1223 | a pass sends nothing iff none of its events decrypts |
| `Redecryption.SecondPassSilentIff` | src/memory_cache.rs:765-781 | with unchanged keys a second pass is silent iff no selected event decrypts to an unreadable one |
| `Redecryption.MalformedOnEveryPass` | src/memory_cache.rs:765-781 | an event that decrypts to an unreadable one stays encrypted and is removed for the application by each of two passes |
| `Redecryption.UnknownPollLost` | src/memory_cache.rs:1046-1053 | a pass over a poll of unknown kind fails, sends nothing, and leaves the event out of the encrypted set |
| `Application.DecryptedShownIff` | src/memory_cache.rs:1255-1276 | a decrypted message stays on display iff it has content; whatever reactions reached the display while it was encrypted, it is then shown as it must look iff these are its reactions and it has no edit and no details |
| `Application.ProducedFresh` | src/memory_cache.rs:1046-1072 | what an event produces is neither edited nor voted on, unless a room message carries a poll as its content |
| `Application.KeptIff` | src/memory_cache.rs:1219-1239 | leaving a message as shown, but for a reaction, is right iff the event that came to relate to it is a new reaction, an edit older than one shown or equal to it, a poll event that leaves ballot and votes the same, an end of an ended poll, or a redaction with the same reason |
| `Application.RelatedShownIff` | src/memory_cache.rs:1243-1326 | following what a pass sends for a decrypted relation, the application drops the relation's own message and still shows the related message as it must look exactly in those cases |
| `Application.FirstEditNotShown` | src/memory_cache.rs:1219-1239 | the first edit of a shown message, decrypted later, is not shown |
| `PassDisplay.PassShownIff` | src/memory_cache.rs:732-743 | over a whole pass a message on display that is not decrypted in it only gains the decrypted reactions to it; it then looks as it must iff these are new and its content, in terms of the relations before and after the pass, stays right |
| `PassDisplay.DecryptedInPassIff` | src/memory_cache.rs:732-743 | a message decrypted in a pass is shown with the content it had at its turn and all reactions of the pass; it looks as it must iff it has no details, has its reactions, and its content is final and not an edit |
| `PassDisplay.MessageThenEdit` | src/memory_cache.rs:736-740 | a message and its edit in one pass, the message first: the content before the edit is shown, which is not as it must look |
| `PassDisplay.EditThenMessage` | src/memory_cache.rs:736-740 | the edit first: the edited content is shown, but not as edited, which is not as it must look |
| `PassDisplay.PassLogSplit` | src/memory_cache.rs:732-743 | what a pass sends is what its first events send followed by what the rest send after them |
| `ReactionIndex.InvAlways` | src/memory_cache.rs:1380-1553 | every interleaving of caching and removing tasks, split at the lock operations, keeps the invariants |
| `ReactionIndex.EntriesHoldWhenFree` | src/memory_cache.rs:1454-1553 | whenever the messages lock is free every index entry points to a message holding that reaction |
| `ReactionIndex.ExactInverseWhenFree` | src/memory_cache.rs:1380-1396 | for ids that always name the same message, the index is then the exact inverse of the reaction maps |
| `ReactionIndex.HandedOutOnce` | src/memory_cache.rs:1454-1529 | no caching of a reaction is returned by two removals |
| `ReactionIndex.LocksNested` | src/memory_cache.rs:1380-1396 | locks are nested only as messages, then index |
| `ReactionIndex.NoDeadlock` | src/memory_cache.rs:1454-1553 | as long as a task is busy some busy task can proceed |
| `ReactionSteps.RemoveInSteps` | src/memory_cache.rs:1454-1486 | the lock-level steps of a removal that nobody interrupts do what the room's method does; a stamp is handed out iff the method returns a reaction |
| `ReactionSteps.CacheInSteps` | src/memory_cache.rs:1380-1396 | the same for caching a reaction |
| `ReactionSteps.ExtractInSteps` | src/memory_cache.rs:1490-1553 | the same for removing by emoji: the reactions extracted are those of the user with the emoji, and the stamp handed out is that of the one returned |
| `ReactionSteps.ProceedsAlone` | src/memory_cache.rs:1454-1553 | a task that holds all locks taken is never kept waiting |
| `Events.MarkerCache.SetReadMarker` | src/memory_cache.rs:1684-1699 | the marker only rises, and the reply says whether it did |
| `Events.EventExecutor.ReadReceipt` | src/events.rs:1424-1446 | one receipt, with other tasks raising markers before it |
| `Events.EventExecutor.ProcessReceipts` | src/events.rs:1404-1451 | the delta of nested receipts: exact without other writers, otherwise new and cached |
| `Events.EventExecutor.GetReadMarker` | src/events.rs:1373-1402 | without other writers exactly the users with a receipt in the update newer than their marker, each with the newest received; `None` iff there is none; with other writers every value was new at the start and is cached at the end |
| `Events.DeltaCompose` | src/utils.rs:30-49 | merging by the greater value composes deltas |
| `Events.RaiseUpdateFlat` | src/events.rs:1373-1451 | however receipts are nested they raise the markers like one list |
| `Events.RaiseIsGreatest` | src/memory_cache.rs:1684-1699 | a user's marker ends as the greatest of the old one and the timestamps received |
| `Events.EventExecutor.GetUserTypingList` | src/events.rs:1355-1371 | `None` iff the update has no typing notification, otherwise the users of the last one |
| `Events.TypingInIs` | src/events.rs:1355-1371 | the same of the specification function, on the places of the update |
| `Events.DeltaTells` | src/events.rs:1373-1451 | in terms of the nested receipts: who is in the read marker change, and with which time |
| `Events.EventExecutor.SendIfNew` | src/events.rs:1343-1352 | a change is tracked and sent unless it repeats the last one tracked for its room |
| `Events.EventExecutor.ExecJoinedRoomUpdate` | src/events.rs:1313-1353 | what an update sends, in order: the unread count, then, for a known room, the users of the last typing notification with the markers, each unless it was tracked last; a change with read markers is never suppressed, whatever other tasks do |
| `Events.EventExecutor.SendEphemeral` | src/events.rs:1323-1352 | typing users and markers in one change, nothing without either |
| `Events.UpdateTells` | src/events.rs:1313-1353 | whatever an update sends is its count or its change, and neither is missing unless it was tracked last |
| `Events.DeltaNeverRepeats` | src/events.rs:709-719 | a change carrying a delta differs from everything tracked |
| `Events.EventExecutor.ExecQueuedRoomChanges` | src/events.rs:724-738 | a replay sends the newest 15 changes tracked since the last replay, in order, and empties that queue only |
| `Events.EventExecutor.TrackRoomChange` | src/events.rs:696-707 | each queue stays the newest 15 changes tracked since its replay; neighbours stay different if the change is new |
| `Events.EventExecutor.IsNewRoomChange` | src/events.rs:709-719 | new iff the queue is missing, empty, or ends with another change |
| `Events.QueueGrows` | src/events.rs:696-707 | dropping the oldest of a full queue and appending keeps it the newest 15 |
| `Events.Serve` | src/events.rs:621-738 | over any run of updates, replays and other tasks the executor's invariants hold, markers only rise, and every change that carried read markers was sent |
| `Utils.MergeMapMax` | src/utils.rs:30-49 | the in-place merge gives, key by key, the greater value, whatever the iteration order |
| `Utils.CompareLists` | src/utils.rs:117-157 | the loops compute the first matches, the changed pairs and the unmatched old items, in order |
| `Utils.AddedAre` | src/utils.rs:117-157 | the added part: the new items without a match, each once and in order |
| `Utils.UpdatedAre` | src/utils.rs:117-157 | the updated part: the new items that differ from their first match, each once with that match and in order |
| `Utils.DeletedAre` | src/utils.rs:117-157 | the deleted part: the old items that are the first match of no new one, each once and in order |
| `Notifications.PartsOf` | src/utils.rs:117-157 | for lists with unique keys the parts are exactly the rooms only in the new map, only in the old one, and in both with different settings |
| `Notifications.AllEmptyIff` | src/utils.rs:117-157 | all three parts are empty iff the maps are equal |
| `Notifications.ComparisonTells` | src/notifications.rs:143-164 | the events name exactly the rooms whose setting changed, with the new setting |
| `Notifications.TellingRebuilds` | src/notifications.rs:143-164 | following such events from the old settings gives the new ones, in any order |
| `Notifications.NotificationManager.CompareRoomChanges` | src/notifications.rs:143-164 | the three loops send the events of the comparison, in the source's order |
| `Notifications.NotificationManager.HandleSettingsChange` | src/notifications.rs:91-131 | after a change the application, following all events since the start, shows the cached settings; nothing is sent if nothing changed |
| `Notifications.Serve` | src/notifications.rs:91-131 | over any run of changes the application shows, after each, the settings it led to, and a change to the same settings sends nothing |
| `Assets.SharedNameIff` | src/media.rs:619-636 | two ids share a file name iff they clash in one of the listed ways |
| `Assets.UnrelatedIds` | src/media.rs:619-636 | none is shared when neither id extends the other by a dot or an underscore |
| `Assets.InfoIsNotData` | src/media.rs:619-636 | the info name is never a data name |
| `Assets.OthersUnchanged` | src/media.rs:582-636 | an asset whose names do not clash keeps its info, its consistency and its data |
| `Assets.AssetManager.ReadInfo` | src/media.rs:560-578 | an info that is returned is the one on disk; `None` covers a missing, unreadable or malformed file |
| `Assets.AssetManager.DeleteAssetAndInfo` | src/media.rs:504-526 | info first, then data; the asset is consistent afterwards iff the info is gone or the data is kept |
| `Assets.InfoWithoutData` | src/media.rs:504-526 | a consistent asset whose data file alone is removed is inconsistent |
| `Assets.ClashBreaksOther` | src/media.rs:504-526 | removing the asset `x`, whose file is `x.y`, leaves the consistent asset `x.y` without its data |
| `Assets.AssetManager.WriteInfo` | src/media.rs:593-607 | only the info changes, and a written info reads back |
| `Assets.AssetManager.WriteInfoAndAsset` | src/media.rs:582-590 | the data is written first, so every state in between is consistent |
| `Assets.AssetManager.DownloadAsset` | src/media.rs:533-556 | with a download, an id and writes that work it succeeds iff the info serialises, and the path is the id with the extension; the named old file is gone; every disk state on the way is consistent; on success the new bytes are at the path |
| `Assets.AssetManager.UploadAsset` | src/media.rs:427-462 | the same for an upload of an existing file, which is moved into place |
| `Assets.AssetManager.MoveIn` | src/media.rs:454-457 | the data is moved in before the info is written |
| `Assets.AssetManager.DownloadIfNeeded` | src/media.rs:413-491 | a returned path always names an existing file that the info names; what happens to a current, a removed and an outdated version, and when an outdated or missing one is stored |
| `Assets.OneDataFileIff` | src/media.rs:533-556 | after a success there is exactly one data file iff there was no other than the named one or one of the new name |
| `Assets.Serve` | src/media.rs:413-556 | over any sequence of downloads, uploads and removals of unrelated assets, in every state a crash can leave, each readable info names an existing data file |
| `Codec.EncodeMessages` | src/proto_cache.rs:383-394 | the buffer is the concatenation of the frames |
| `Codec.DecodeMessages` | src/proto_cache.rs:397-425 | the loop terminates and computes the recursive decoding, errors included |
| `Codec.FirstFrame` | src/proto_cache.rs:397-425 | what the first frame does: a length that does not fit, a message that cannot be decoded, or a message before what follows |
| `Codec.LeRoundTrip` | src/proto_cache.rs:388-412 | little-endian numbers below 256^k survive k bytes |
| `Codec.LeConcat` | src/proto_cache.rs:388-412 | the bytes that come first count least |
| `Codec.RoundTrip` | src/proto_cache.rs:383-425 | decoding an encoding gives back every message list |
| `Codec.ConcatenatedEncodings` | src/proto_cache.rs:383-425 | decoding two encodings in a row concatenates the lists |
| `Codec.PrefixDecodes` | src/proto_cache.rs:397-425 | a cut encoding decodes iff it is cut between frames, and then to the messages before the cut |
| `ProtoCache.EncryptToFile` | src/crypto.rs:37-97 | the file is salt, nonce and ciphertext, or which step failed |
| `ProtoCache.DecryptFile` | src/crypto.rs:24-115 | reading it piece by piece, with the error of the first piece missing |
| `ProtoCache.EncryptionRoundTrip` | src/crypto.rs:24-115 | what was encrypted decrypts under the same passphrase |
| `ProtoCache.CutUnreadable` | src/crypto.rs:24-115 | an encrypted file that is cut anywhere, be it in salt, nonce or ciphertext, does not decrypt |
| `ProtoCache.OpRefinesMap` | src/proto_cache.rs:340-369 | one operation on the users list is that operation on a map and keeps ids unique |
| `ProtoCache.RunRefinesMap` | src/proto_cache.rs:340-369 | so is any run of operations |
| `ProtoCache.Cache.CacheUser` | src/proto_cache.rs:340-351 | the user is replaced in place or appended |
| `ProtoCache.Cache.UpdateUser` | src/proto_cache.rs:353-369 | only a cached user changes, in place |
| `ProtoCache.Cache.GetUser` | src/proto_cache.rs:371-379 | the result is that of a map lookup |
| `ProtoCache.Cache.SetSyncToken` | src/proto_cache.rs:326-329 | the token changes and the user status stays |
| `ProtoCache.Cache.constructor` | src/proto_cache.rs:199-236 | what a start reads back, and what it falls back to if a file cannot be read |
| `ProtoCache.Cache.ReadInfo` | src/proto_cache.rs:238-250 | the info changes only if the whole file could be read |
| `ProtoCache.Cache.ReadUsers` | src/proto_cache.rs:253-265 | the users change only if the whole file could be read |
| `ProtoCache.Cache.WriteUsers` | src/proto_cache.rs:288-305 | nothing is written without cached users; otherwise the file afterwards, by the step that failed, also when the write is cut short |
| `ProtoCache.Cache.WriteInfo` | src/proto_cache.rs:307-320 | the file afterwards, by the step that failed, also when the write is cut short |
| `ProtoCache.Cache.Save` | src/proto_cache.rs:268-286 | the info on disk changes only if the users reached the disk; what was written reads back, what was cut short is unreadable, any other file keeps its content; exactly when each is the case |
| `ProtoCache.SaveThenStart` | src/proto_cache.rs:227-320 | a save and a start give back the info and the cached users, or those of an earlier save if none are cached |
| `ProtoCache.TokenSurvives` | src/proto_cache.rs:268-329 | a token set before a save is the one the next start resumes from |
| `SaveOrder.SafeAlways` | src/proto_cache.rs:268-320 | over all interleavings of user changes, syncs, saves and crashes without a token set between the snapshots and a cut users write, the users on disk are never older than those the token on disk was set with |
| `SaveOrder.TokenFollowsUsers` | src/proto_cache.rs:278-285 | in every run, also with races and cut writes, the info file changes only in a save whose users are on disk already |
| `SaveOrder.CutShortWriteUnsafeIff` | src/crypto.rs:45-49 | in any state a users write cut short is safe iff the token on disk, if any, was set before any user was cached |
| `SaveOrder.CutShortExample` | src/crypto.rs:45-49 | a reachable state in which a users write cut short is unsafe |
| `SaveOrder.NoBatchSkipped` | src/session.rs:209-235 | across failed syncs, failed or cut writes, races and restarts, everything before the position a sync resumes from has been received in some response |
| `SaveOrder.SaveInSteps` | src/proto_cache.rs:268-320 | the save of the cache is the sequence of steps of an undisturbed save, whichever of its writes fail or are cut short |
| `SaveOrder.StartInStep` | src/proto_cache.rs:199-236 | a start of the cache is the restart step |
| `Staleness.DiskBehindIff` | src/proto_cache.rs:288-320 | for every step, also failed and cut writes, exactly when it leaves a cached user on disk without a change before the token on disk |
| `Staleness.WindowEffect` | src/session.rs:209-235 | what any steps beside a save do to the save, the disk and the token |
| `Staleness.SaveIsBehindIff` | src/proto_cache.rs:268-320 | in any state, with any steps before, between and after its writes: a save leaves the disk behind iff the users in memory at its first snapshot lack a change before the token on disk after it, which is the one at its second snapshot, or the old one if the info is not written, or none if it is cut short |
| `Staleness.BehindBecause` | src/session.rs:230-232 | a save that succeeds leaves the disk behind iff a change was delivered but not executed, was lost before, or is overtaken by a token set between the snapshots |
| `Staleness.LagExample` | src/session.rs:230-232 | the token is set before the executor comes to a change: a save beside which nothing happens is behind |
| `Staleness.RaceExample` | src/proto_cache.rs:268-320 | a change executed in time, and the token after it, between the snapshots of a save: the disk is behind |
| `Staleness.LostIff` | src/proto_cache.rs:340-369 | for every step, exactly which changes it loses and which lost ones it brings back |
| `Staleness.LostUntilIff` | src/proto_cache.rs:340-369 | over any run a lost change stays lost exactly until a step that brings it back |
| `Staleness.RestartLosesIff` | src/proto_cache.rs:199-236 | a restart loses a change iff the user on disk lacks it and it is before the token on disk; it loses some iff the disk is behind |
| `Staleness.SyncLosesIff` | src/session.rs:121-143 | a sync passes by a change iff its handlers skip it or, in the first sync of a start, whatever it is |
| `Staleness.FirstSyncLosesIff` | src/session.rs:121-143 | after a restart and its first sync a change before that sync's end is lost iff the user on disk lacks it |
| `Staleness.FirstSyncExample` | src/session.rs:121-143 | a run in which the disk is not behind and nothing is skipped, and the first sync after the restart loses a change |
| `Staleness.DrainShows` | src/events.rs:601-608 | once the executor has come to all that was delivered, dropping nothing, no cached user lacks it, and nothing else has changed |
| `Staleness.LostIsSaved` | src/proto_cache.rs:268-320 | a save while a change is lost leaves the disk behind, whatever happens beside it |
| `Staleness.NeverBehind` | src/proto_cache.rs:268-320 | over every run, crashes and cut files included, in which no step loses a change, none lags at a first snapshot and none is overtaken before the second, the disk is never behind |
| `Verification.VerificationProcessor.WaitForChanges` | src/verification.rs:110-132 | the nested loops behave, turn by turn, like one flat machine |
| `Verification.VerificationProcessor.ProcessStateChange` | src/verification.rs:138-210 | the effect of each request state, with the inner loop run to its end |
| `Verification.VerificationProcessor.ProcessAction` | src/verification.rs:216-256 | the effect of each action on the outer loop |
| `Verification.RequestStateTells` | src/verification.rs:138-210 | reading a state of the request: the events sent, whether it goes on, and in which loop; two offers, string before symbol, for each shared SAS method of ours |
| `Verification.RequestActionTells` | src/verification.rs:216-256 | taking an action while the request is open: a cancellation, or what starting a SAS comes to |
| `Verification.SasVerificationManager.Run` | src/sas.rs:43-65 | the inner loop on the shared queue is the machine's second phase |
| `Verification.SasVerificationManager.ProcessStateChange` | src/sas.rs:71-115 | the effect of each SAS state |
| `Verification.SasVerificationManager.ProcessAction` | src/sas.rs:121-144 | the effect of each action on the inner loop |
| `Verification.SasStateTells` | src/sas.rs:71-115 | reading a state of the SAS: emojis if there are any, otherwise the decimals; the ends |
| `Verification.SasActionTells` | src/sas.rs:121-144 | taking an action during it: a cancellation, or a confirmation, which ends it only if it fails |
| `Verification.TraceAlways` | src/verification.rs:110-278 | for every schedule the events are starts, then selected methods, then at most one end, at which the task stops |
| `Verification.StoppedStays` | src/verification.rs:118-128 | nothing is sent and no action is taken after the stop |
| `Verification.SilentStopIff` | src/verification.rs:117-205 | the task stops without an end iff a stream ended, the sender is gone or the request is done |
| `Verification.SuccessIff` | src/sas.rs:93-101 | success is reported iff the SAS verification reads Done |
| `Verification.ActionsConserved` | src/sas.rs:43-65 | the actions both loops take are a prefix of the queue, each taken once |
| `Verification.GetAvailableMethods` | src/verification.rs:282-298 | the methods both devices support, in our order, two offers for each |
| `Verification.OffersAre` | src/verification.rs:282-298 | two offers, string before symbol, for each SAS method of ours that the other device supports |
| `Verification.AvailableIff` | src/verification.rs:282-358 | a SAS is offered iff both devices support it |
| `Session.SyncProcess.SyncOnce` | src/session.rs:209-235 | the request carries the cached token; only a success replaces it |
| `Session.SyncProcess.ProcessSyncResult` | src/session.rs:242-263 | statuses, flag, session and result for every outcome |
| `Session.SyncProcess.HandleConnectionError` | src/session.rs:275-289 | the first failure of an outage is reported |
| `Session.SyncProcess.HandleTokenError` | src/session.rs:313-323 | a hard logout ends the loop with a status, a soft one is refreshed |
| `Session.SyncProcess.RefreshAccessToken` | src/session.rs:335-354 | the session is replaced iff the refresh succeeds and yields one |
| `Session.SyncProcess.BackgroundSync` | src/session.rs:188-207 | the loop ends at the first unrecoverable outcome; log, flag, tokens, session and error event are functions of the outcomes |
| `Session.FatalIff` | src/session.rs:242-323 | exactly successes, connection errors and soft logouts with a refreshed session keep the loop going |
| `Session.StatusesAlternate` | src/session.rs:242-289 | the statuses alternate, starting with NetworkUnavailable, and the flag holds iff that is the last one, also through refreshes |
| `Session.StatusLogShape` | src/session.rs:188-333 | a whole run adds at most one SessionInvalid, at the end, iff it ends in a hard logout |
| `Session.ResumesFromLastSuccess` | src/session.rs:209-235 | each sync is requested with the batch of the last success before it |
| `Session.OutageStep` | src/session.rs:242-289 | when an outage begins, lasts and ends |

## Left out

- Field copying in `src/rooms.rs`, `src/user.rs` and `src/messages.rs`, request forwarding in `src/client.rs`, and the
  enum maps of `src/bridge.rs` and `src/error.rs`: these would only add easy members. The fields of a message that are
  copied only (reply, mentions, thread) are one string, `details`.
- Read markers during a fetch (`update_read_markers`, `load_and_cache_event_read_markers`) and user changes in the
  executor: the same pattern as the room changes that are modelled.
- `calc_chunk_size`: a fetch does not depend on the sizes of its pages.
- Wall-clock code: the filter of historical events (in `SaveOrder` a delivery skips any changes) and the timeout after marking a room as read; whether an unread
  count may be sent is a parameter.
- Cryptography, protobuf, JSON and MIME detection: abstract, with round-trip laws as hypotheses.
- Failures to parse an undecryptable event: the model caches every undecryptable event that reaches it.
- `retry_decryption` beside other passes or a fetch: `RoomRuns` runs the operations on a room one after the other.
- Two managers working on one asset at a time, path separators in ids, and a file write that a crash or a full disk cuts
  short in the asset store: `Assets` takes a single file operation to be atomic and the operations of one call to be uninterleaved.
- `SaveOrder`: how the executor decides that a change repeats the last of its user (any change may be dropped), and what value of a
  user is fetched or read (any set of its changes); a change sent by the executor reaches the cache in one step.
- The user status in the cached info is saved and read back, but what sets it is not modelled.
- The poll event handlers of `events.rs`: what the response and the replacement handler do to the poll content is
  modelled, loading the relations and building the `MessageChangeEvent` is not.
- ProtoCache.UserChange: what an update does to a user is a function that keeps the id; the conversion itself is not part of this model.
- Assets.AssetManager.DownloadIfNeeded: with a failing read or removal it states existence of the returned file and, for removal, nothing about consistency, which then fails as `DeleteAssetAndInfo` says.
- ReactionIndex.NoDeadlock: says that some busy task can proceed, not that every task is scheduled eventually.
