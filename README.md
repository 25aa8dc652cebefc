# Misskey timelines, word mutes, messaging read state and delayed-delivery stats

A Dafny model of four parts of a Misskey backend:

- **Word mutes** (`checkWordMute`). A note's content warning and text are joined and trimmed. The phonetic custom-emoji shortcodes (`:_ka:` and the like) are replaced by their kana. The result is then matched against the user's muted-word filters: AND-groups of substrings, or `/regex/flags` expressions.
- **Streaming timeline channels** (home, local, hybrid). Each channel decides, note by note, whether a note from the notes stream is sent to the subscribed viewer. The checks are:
  - scope;
  - muted instances;
  - re-packing of `followers`/`specified` notes for the viewer;
  - reply relevance;
  - muting and blocking;
  - manual note mutes and word mutes on the reply, the renote and the note itself.

  `init`/`dispose` register and unregister the channel's handler.
- **Messaging service**:
  - creating a message: the stored record, the stream fan-out, and the ActivityPub `Create` delivery to a remote recipient;
  - the deferred "still unread" check the creation schedules;
  - marking direct and group messages as read, with their access-denied errors;
  - batching `Read` activities.
- **`admin/queue/deliver-delayed`**. It counts delayed deliver jobs per destination host, attaches each host's `isNotResponding` flag, and sorts the hosts by count, largest first.

Layout, one module per source file plus shared modules:

| module | file | form |
|---|---|---|
| `Wrappers` | wrappers.dfy | `Option`, `Outcome` |
| `JsString` | js_string.dfy | `String.prototype.trim` and `includes` on `seq<char>` |
| `WordMute` | check_word_mute.dfy | pure functions and lemmas |
| `Timeline` | timeline.dfy | note/viewer records and the `checkWordMutes` stage shared by the channels |
| `HomeTimeline`, `LocalTimeline`, `HybridTimeline` | home_timeline.dfy, local_timeline.dfy, hybrid_timeline.dfy | a `Decide` function per channel, plus a class whose `Screen` method is proved equal to it and whose `OnNote` sends what `Screen` lets through |
| `Messaging` | messaging.dfy | a class over the message table and an event log; each method is proved against a specification function |
| `DeliverDelayed` | deliver_delayed.dfy | loops over the jobs and `resMap`, and an in-place stable sort on an `array<Row>` |

Collaborators whose code is not part of this model are parameters:

- The timeline channels receive, as fields of `Services`: `noteEntityService.pack`, `isManualMutedNote`, `isUserRelated`, `isInstanceMuted`, the RE2 engine, and the `ltlAvailable` role policy.
- The messaging service receives `getHasUnreadMessagingMessage` as a function of the table.
- The endpoint receives the URL parser (`new URL(to).host`) and `isNotResponding`.

Conventions:

- A channel's subscription is a count of registered handlers. `Subscribed()` means the count is positive, as an `EventEmitter` does with `on`/`off`.
- Streams, pushes, notification records and ActivityPub deliveries are entries of an event log. A packed message in a payload stands for its id.
- The message field `reads` is called `readers`, because `reads` is a Dafny keyword.
- The emoji table (check-word-mute.ts:52-86) is written as two `match` functions: `HiraganaOf` for the keys `:_x:` and `KatakanaOf` for the keys `:_x2:`.

The group branch of the deferred unread check is modelled twice: as written, where the loop `return`s at the first member who has read the message, and corrected, where that member is skipped. The service uses the corrected loop; "## Findings" gives the reasons and names both.

## Model

| member | source | states |
|---|---|---|
| JsString.TrimStart | packages/backend/src/misc/check-word-mute.ts:20 | the result is a suffix of the input; the removed prefix is all whitespace; the result does not start with whitespace |
| JsString.TrimEnd | packages/backend/src/misc/check-word-mute.ts:20 | the result is a prefix of the input; the removed suffix is all whitespace; the result does not end with whitespace |
| JsString.TrimSlice | packages/backend/src/misc/check-word-mute.ts:20 | `trim` returns a slice of the input with only whitespace cut at both ends and no whitespace left at either end of the result |
| JsString.TrimEmptyIffBlank | packages/backend/src/misc/check-word-mute.ts:20-22 | the trimmed text is empty exactly when the text is blank, which is when `checkWordMute` gives up |
| WordMute.LetterRun | packages/backend/src/misc/check-word-mute.ts:88 | the `[a-zA-Z]+` part of the shortcode pattern: the longest run of ASCII letters at the start |
| WordMute.TokenLength | packages/backend/src/misc/check-word-mute.ts:88 | a positive length is the length of a `:_letters:` token at the start of the text |
| WordMute.TokenLengthIsTheMatch | packages/backend/src/misc/check-word-mute.ts:88 | a prefix is a shortcode token exactly when its length is the one `TokenLength` finds (the match is unique) |
| WordMute.TokenBecomesHiragana | packages/backend/src/misc/check-word-mute.ts:52-88 | every token the pattern can match is looked up among the plain `:_x:` keys; a key in the table becomes its kana, any other token stays as it is |
| WordMute.KatakanaKeyIsNoToken | packages/backend/src/misc/check-word-mute.ts:62-85 | every katakana key `:_<name>2:` is in the table, and none is a token: its `2` is not a letter, so the `[a-zA-Z]+` pattern never matches it |
| WordMute.ScanCopiesColonFree | packages/backend/src/misc/check-word-mute.ts:88 | the scan copies a stretch of text without a colon unchanged, since no token can start in it, and goes on after it |
| WordMute.KatakanaShortcodeSurvives | packages/backend/src/misc/check-word-mute.ts:62-88 | wherever the scan meets a katakana key, whatever follows it, the key up to its closing colon is copied unchanged and the scan resumes at that colon |
| WordMute.NoTokenUnchanged | packages/backend/src/misc/check-word-mute.ts:88 | text in which no position starts a token is returned unchanged |
| WordMute.TokenAtStart | packages/backend/src/misc/check-word-mute.ts:88 | a token at the start is replaced by its lookup and the scan continues after it (global, left to right, non-overlapping) |
| WordMute.LastIndexOf | packages/backend/src/misc/check-word-mute.ts:31 | the last occurrence of a character, or none |
| WordMute.ParseRegExpSpec | packages/backend/src/misc/check-word-mute.ts:31-34 | `^\/(.+)\/(.*)$` splits at the last `/`: a non-empty body after a leading `/`, flags after it, no line terminator anywhere; anything else does not parse |
| WordMute.ExpressionFilterMeaning | packages/backend/src/misc/check-word-mute.ts:29-42 | an expression filter matches exactly when its source is a regex literal and RE2 compiles it and finds a match; a malformed or throwing filter never matches |
| WordMute.FirstMatch | packages/backend/src/misc/check-word-mute.ts:26-43 | `some`: finds the first matching filter, with none matching before it; if none is found, no filter matches |
| WordMute.CheckWordMute | packages/backend/src/misc/check-word-mute.ts:15-49 | never mutes the viewer's own note or an empty filter list |
| WordMute.CheckWordMuteMeaning | packages/backend/src/misc/check-word-mute.ts:15-49 | a note is muted exactly when it is not the viewer's own, its trimmed text is non-empty and some filter matches the emoji-replaced text (AND-group: every keyword included) |
| WordMute.BlankNoteNeverMatches | packages/backend/src/misc/check-word-mute.ts:20-22 | a note whose warning and text are blank is never muted |
| WordMute.EmptyKeywordGroupMatchesAll | packages/backend/src/misc/check-word-mute.ts:27-28 | an empty AND-group mutes every non-blank note of someone else (`every` on an empty array) |
| Timeline.PackReferences | packages/backend/src/server/api/stream/channels/home-timeline.ts:52-63 | `reply` and `renote` become the viewer's packed copies of `replyId` and `renoteId` when those are set, and stay as they were otherwise; every other field is unchanged |
| Timeline.Repack | packages/backend/src/server/api/stream/channels/home-timeline.ts:43-64 | a `followers`/`specified` note is replaced by the viewer's packed copy; any other note keeps every other field, and its `reply`/`renote` become the viewer's packed copies of `replyId`/`renoteId` when those are set |
| Timeline.RepackFor | packages/backend/src/server/api/stream/channels/home-timeline.ts:43-64 | the re-packing stage computes `Repack`: the viewer's copy of a restricted note, otherwise the note with its references packed |
| Timeline.CheckWordMutes | packages/backend/src/server/api/stream/channels/home-timeline.ts:97-122 | the muted verdict is the disjunction of the checks on the reply (manual mute, then word mute), the renote, then the note itself; the note whose references were re-packed on the way comes back when nothing mutes |
| Timeline.OwnNoteNotWordMuted | packages/backend/src/server/api/stream/channels/home-timeline.ts:97-122 | a note by the viewer, replying to and renoting the viewer's own notes, is never word-muted |
| Timeline.NoProfileOnlyManualMutes | packages/backend/src/server/api/stream/channels/home-timeline.ts:104-119 | without a profile only manual note mutes can mute, and only when they are checked |
| HomeTimeline.DeliveredIff | packages/backend/src/server/api/stream/channels/home-timeline.ts:32-88 | a note is sent exactly when it passes every stage: scope, instance mute, hidden after re-pack, reply relevance, mute/block, manual and word mutes |
| HomeTimeline.ChannelNoteNeedsFollowedChannel | packages/backend/src/server/api/stream/channels/home-timeline.ts:33-34 | a sent note with a truthy (present, non-empty) `channelId` is in a channel the viewer follows |
| HomeTimeline.PlainNoteNeedsFollowedAuthor | packages/backend/src/server/api/stream/channels/home-timeline.ts:35-38 | a sent note without a channel, or with an empty `channelId`, is by the viewer or by someone the viewer follows |
| HomeTimeline.MutedInstanceDroppedBeforeRepack | packages/backend/src/server/api/stream/channels/home-timeline.ts:41 | a note from a muted instance is dropped, judged on the note as streamed, before re-packing |
| HomeTimeline.RestrictedNoteIsRepacked | packages/backend/src/server/api/stream/channels/home-timeline.ts:43-64 | a `followers`/`specified` note is dropped when the viewer's copy is hidden, and otherwise only the viewer's copy is sent |
| HomeTimeline.DeliveredReplyIsRelevant | packages/backend/src/server/api/stream/channels/home-timeline.ts:67-71 | with `showTimelineReplies` off, a sent reply is to the viewer, by the viewer, or a self-reply |
| HomeTimeline.ManuallyMutedReferenceDropped | packages/backend/src/server/api/stream/channels/home-timeline.ts:99-111 | a note whose reply or renote the viewer muted manually is dropped |
| HomeTimeline.HomeTimelineChannel.constructor | packages/backend/src/server/api/stream/channels/home-timeline.ts:26-29 | a fresh channel has no registered handler and has sent nothing |
| HomeTimeline.HomeTimelineChannel.Init | packages/backend/src/server/api/stream/channels/home-timeline.ts:26-29 | registers the handler |
| HomeTimeline.HomeTimelineChannel.Dispose | packages/backend/src/server/api/stream/channels/home-timeline.ts:91-94 | unregisters the handler `Init` registered |
| HomeTimeline.HomeTimelineChannel.Screen | packages/backend/src/server/api/stream/channels/home-timeline.ts:32-88 | the handler's stages, in the source's order and with the truthiness test on `channelId`, reach the verdict `HomeTimeline.Decide` |
| HomeTimeline.HomeTimelineChannel.OnNote | packages/backend/src/server/api/stream/channels/home-timeline.ts:32-88 | runs while the handler is registered; its verdict is `HomeTimeline.Decide`; the note is cached and sent exactly when the verdict is to send it |
| LocalTimeline.RemoteNoteNeverDelivered | packages/backend/src/server/api/stream/channels/local-timeline.ts:39 | a note by a remote author is never sent |
| LocalTimeline.NonPublicNoteNeverDelivered | packages/backend/src/server/api/stream/channels/local-timeline.ts:40 | a note that is not `public` is never sent |
| LocalTimeline.IgnoresFollowGraph | packages/backend/src/server/api/stream/channels/local-timeline.ts:39-41 | whom the viewer follows makes no difference to the verdict |
| LocalTimeline.FailsOnlyForAnonymousReply | packages/backend/src/server/api/stream/channels/local-timeline.ts:57-61 | the handler fails (the `this.user!` dereference) exactly for an anonymous viewer and an in-scope note with a reply |
| LocalTimeline.DeliveredIff | packages/backend/src/server/api/stream/channels/local-timeline.ts:38-78 | a note is sent exactly when it is in scope and passes reply relevance, mute/block and word mutes, with no manual note-mute check |
| LocalTimeline.LocalTimelineChannel.constructor | packages/backend/src/server/api/stream/channels/local-timeline.ts:29-35 | a fresh channel has no registered handler and has sent nothing |
| LocalTimeline.LocalTimelineChannel.Init | packages/backend/src/server/api/stream/channels/local-timeline.ts:29-35 | registers the handler only when the viewer's role allows the local timeline |
| LocalTimeline.LocalTimelineChannel.Dispose | packages/backend/src/server/api/stream/channels/local-timeline.ts:81-84 | unregisters the handler `Init` registered |
| LocalTimeline.LocalTimelineChannel.Screen | packages/backend/src/server/api/stream/channels/local-timeline.ts:38-78 | the handler's stages, in the source's order, reach the verdict `LocalTimeline.Decide` |
| LocalTimeline.LocalTimelineChannel.OnNote | packages/backend/src/server/api/stream/channels/local-timeline.ts:38-78 | runs while the handler is registered; its verdict is `LocalTimeline.Decide`; the note is cached and sent exactly when the verdict is to send it |
| HybridTimeline.ScopeOfDelivered | packages/backend/src/server/api/stream/channels/hybrid-timeline.ts:44-49 | a sent note is in a followed channel, or is by the viewer, by someone followed, or local and public |
| HybridTimeline.DeliveredIff | packages/backend/src/server/api/stream/channels/hybrid-timeline.ts:39-99 | a note is sent exactly when it passes scope, hidden after re-pack, instance mute on the re-packed note, reply relevance, mute/block and word mutes |
| HybridTimeline.MutedInstanceCheckedAfterRepack | packages/backend/src/server/api/stream/channels/hybrid-timeline.ts:51-75 | the instance mute is judged on the re-packed copy |
| HybridTimeline.RestrictedNoteIsRepacked | packages/backend/src/server/api/stream/channels/hybrid-timeline.ts:51-72 | a `followers`/`specified` note is dropped when the viewer's copy is hidden, and otherwise only the viewer's copy is sent |
| HybridTimeline.HybridTimelineChannel.constructor | packages/backend/src/server/api/stream/channels/hybrid-timeline.ts:30-36 | a fresh channel has no registered handler and has sent nothing |
| HybridTimeline.HybridTimelineChannel.Init | packages/backend/src/server/api/stream/channels/hybrid-timeline.ts:30-36 | registers the handler only when the viewer's role allows the local timeline |
| HybridTimeline.HybridTimelineChannel.Dispose | packages/backend/src/server/api/stream/channels/hybrid-timeline.ts:102-105 | unregisters the handler `Init` registered |
| HybridTimeline.HybridTimelineChannel.Screen | packages/backend/src/server/api/stream/channels/hybrid-timeline.ts:39-99 | the handler's stages, in the source's order, reach the verdict `HybridTimeline.Decide` |
| HybridTimeline.HybridTimelineChannel.OnNote | packages/backend/src/server/api/stream/channels/hybrid-timeline.ts:39-99 | runs while the handler is registered; its verdict is `HybridTimeline.Decide`; the note is cached and sent exactly when the verdict is to send it |
| Messaging.NewMessage | packages/backend/src/core/MessagingService.ts:54-65 | a new message is unread with no readers, by the sender, with its recipient or group, file and uri taken from the arguments |
| Messaging.NewMessageText | packages/backend/src/core/MessagingService.ts:60 | the stored text is null exactly for a missing or empty input, and is otherwise the input with only its surrounding whitespace cut |
| Messaging.DirectFanOutOnlyLocal | packages/backend/src/core/MessagingService.ts:71-84 | only the local participants of a direct message get its three stream events each, and nobody else does |
| Messaging.MemberEventsPerMember | packages/backend/src/core/MessagingService.ts:90-94 | every group member gets its index and main stream event, in joining order |
| Messaging.CreateDeliveryOnlyToRemote | packages/backend/src/core/MessagingService.ts:132-151 | exactly one ActivityPub `Create` goes to the recipient's inbox when a local user writes to a remote one, and none otherwise |
| Messaging.GroupMembers | packages/backend/src/core/MessagingService.ts:90 | the members listed are exactly the users with a joining of the group |
| Messaging.OtherMembers | packages/backend/src/core/MessagingService.ts:119 | the members walked by the group unread check are the group's members in joining order with the sender taken out; a user is walked exactly when they are a member and not the sender |
| Messaging.FirstReader | packages/backend/src/core/MessagingService.ts:120-121 | the position of the first member who has read the message; nobody before it has |
| Messaging.UnreadNotifySplit | packages/backend/src/core/MessagingService.ts:120-128 | the loop's events so far are those of every member passed, followed by what the rest of the loop emits |
| Messaging.NotifyUntilRead | packages/backend/src/core/MessagingService.ts:119-128 | (loop as written, see Findings) the member loop emits `UnreadNotify`: each member's events in order, stopping at the first member who has read the message |
| Messaging.UnreadNotifiesPrefix | packages/backend/src/core/MessagingService.ts:118-128 | (loop as written) exactly the members before the first one who has read the message are notified |
| Messaging.LaterMemberMissesNotification | packages/backend/src/core/MessagingService.ts:120-121 | (loop as written) a member who has not read the message still gets nothing when an earlier member has |
| Messaging.NotifyUnreadSplits | packages/backend/src/core/MessagingService.ts:119-128 | (corrected loop) the events for members `a + b` are those for `a` followed by those for `b`, so no member's having read affects another |
| Messaging.NotifyUnreadMeaning | packages/backend/src/core/MessagingService.ts:119-128 | (corrected loop) every member who has not read the message gets its unread event, push and notification, and every event emitted belongs to such a member |
| Messaging.LaterMemberNotified | packages/backend/src/core/MessagingService.ts:119-128 | (corrected loop) on the input where the loop as written stops early, the member who has not read the message is notified |
| Messaging.NotifyEachUnread | packages/backend/src/core/MessagingService.ts:119-128 | (corrected loop) the member loop skipping members who have read emits `NotifyUnread` |
| Messaging.UnreadCheckDeletedMessage | packages/backend/src/core/MessagingService.ts:99-100 | a message deleted before the check runs produces nothing, for any recipient or group |
| Messaging.UnreadCheckSilentCases | packages/backend/src/core/MessagingService.ts:99-110 | for a local recipient, nothing is emitted for a deleted message, or for a direct message that is read or whose sender the recipient mutes |
| Messaging.UnreadCheckDirect | packages/backend/src/core/MessagingService.ts:102-117 | an unread, unmuted direct message to a local recipient gives that recipient one unread event, one push and one notification |
| Messaging.MarkReadOnlyMatching | packages/backend/src/core/MessagingService.ts:201-208 | the update sets `isRead` only on listed messages from the other party to the caller; no other field or row changes |
| Messaging.MarkReadIdempotent | packages/backend/src/core/MessagingService.ts:201-208 | marking the same messages again changes nothing |
| Messaging.ReadWholeRoom | packages/backend/src/core/MessagingService.ts:201-232 | listing every unread message of a conversation leaves none unread there, so the room event is emitted when unread messages remain elsewhere |
| Messaging.FindJoining | packages/backend/src/core/MessagingService.ts:247-254 | finds a joining of the caller to the group, or shows there is none |
| Messaging.Fetched | packages/backend/src/core/MessagingService.ts:256-258 | the fetched rows are the listed ids that exist, each once |
| Messaging.NewlyRead | packages/backend/src/core/MessagingService.ts:260-275 | the ids read now are exactly the fetched messages that are not the caller's and that the caller has not read |
| Messaging.ReaderRecordedOnce | packages/backend/src/core/MessagingService.ts:262-275 | afterwards the caller is a reader of every fetched message not their own, appended exactly once when new; all other rows are unchanged |
| Messaging.SecondGroupReadIsEmpty | packages/backend/src/core/MessagingService.ts:262-275 | reading the same messages again reads nothing |
| Messaging.NothingUnreadReadsNothing | packages/backend/src/core/MessagingService.ts:263-264 | when every fetched message is the caller's own or already read by them, nothing is read |
| Messaging.WithUri | packages/backend/src/core/MessagingService.ts:305 | the messages kept are exactly those whose `uri` is truthy: present and not empty |
| Messaging.IdsOf | packages/backend/src/core/MessagingService.ts:306-309 | the collection items are the kept messages' ids, in order |
| Messaging.AtMostOneReadDelivery | packages/backend/src/core/MessagingService.ts:304-316 | at most one delivery: a collection when several messages have a non-empty `uri`, a single `Read` for one, and nothing when none has |
| Messaging.MessagingService.constructor | packages/backend/src/core/MessagingService.ts:25-50 | the service starts with an empty table and log |
| Messaging.MessagingService.CreateMessage | packages/backend/src/core/MessagingService.ts:53-153 | inserts the new record unless its id exists; appends the fan-out and the ActivityPub delivery to the log |
| Messaging.PublishToMembers | packages/backend/src/core/MessagingService.ts:90-94 | the loop over the joinings publishes `MemberEvents` of the group's members: each member's index and main events, in joining order |
| Messaging.MessagingService.FireUnreadCheck | packages/backend/src/core/MessagingService.ts:98-130 | appends exactly what `UnreadCheck` says, with the group loop as corrected under Findings (a member who has read is skipped); the table is unchanged |
| Messaging.MessagingService.ReadUserMessagingMessage | packages/backend/src/core/MessagingService.ts:183-233 | with no ids, nothing happens; a listed message addressed to someone else is denied before any update; otherwise the table becomes `MarkRead` and the read events follow |
| Messaging.MessagingService.ReadGroupMessagingMessage | packages/backend/src/core/MessagingService.ts:239-301 | with no ids, nothing happens; a caller who has not joined is denied; otherwise the newly read ids are returned, the caller is appended to their readers, and the read events follow |
| Messaging.AddReaderToEach | packages/backend/src/core/MessagingService.ts:260-275 | the loop returns the newly read ids and the table with the caller appended to exactly those rows |
| Messaging.MessagingService.DeliverReadActivity | packages/backend/src/core/MessagingService.ts:304-316 | appends the batched `Read` deliveries to the recipient's inbox |
| DeliverDelayed.Hosts | packages/backend/src/server/api/endpoints/admin/queue/deliver-delayed.ts:59-60 | the host of every job's destination, or a failure naming a job whose URL does not parse |
| DeliverDelayed.Distinct | packages/backend/src/server/api/endpoints/admin/queue/deliver-delayed.ts:57-67 | the `resMap` keys: each host of the jobs exactly once |
| DeliverDelayed.DistinctInFirstSeenOrder | packages/backend/src/server/api/endpoints/admin/queue/deliver-delayed.ts:57-67 | the keys come in the order of each host's first occurrence among the jobs, the `Map`'s insertion order |
| DeliverDelayed.TallyMeaning | packages/backend/src/server/api/endpoints/admin/queue/deliver-delayed.ts:57-74 | one row per distinct host, counting that host's jobs and carrying its flag; the counts add up to the number of jobs |
| DeliverDelayed.SwapKeepsGroups | packages/backend/src/server/api/endpoints/admin/queue/deliver-delayed.ts:78 | exchanging neighbours of different counts keeps the order within every count |
| DeliverDelayed.SameCountGroupsIsPermutation | packages/backend/src/server/api/endpoints/admin/queue/deliver-delayed.ts:77-78 | keeping the order within every count means the sorted rows are a permutation of the unsorted ones |
| DeliverDelayed.PermutationKeepsSum | packages/backend/src/server/api/endpoints/admin/queue/deliver-delayed.ts:77-78 | rearranging rows keeps the total count |
| DeliverDelayed.RearrangedTallyMeaning | packages/backend/src/server/api/endpoints/admin/queue/deliver-delayed.ts:57-78 | after sorting there is still one row per distinct host with its job count and flag, and the counts still add up to the number of jobs |
| DeliverDelayed.InsertAt | packages/backend/src/server/api/endpoints/admin/queue/deliver-delayed.ts:78 | one insertion step: the sorted prefix grows by one row, and the order within every count is kept |
| DeliverDelayed.SortByCountDesc | packages/backend/src/server/api/endpoints/admin/queue/deliver-delayed.ts:78 | sorts in place by count, largest first, keeping the first-seen order of equal counts (a stable sort) |
| DeliverDelayed.HostsFailAt | packages/backend/src/server/api/endpoints/admin/queue/deliver-delayed.ts:59-60 | one job whose URL does not parse makes the whole request fail |
| DeliverDelayed.CountMap | packages/backend/src/server/api/endpoints/admin/queue/deliver-delayed.ts:57-67 | the finished `resMap`: exactly the hosts seen, each with its number of jobs and an unset flag |
| DeliverDelayed.CountHost | packages/backend/src/server/api/endpoints/admin/queue/deliver-delayed.ts:61-66 | one job more: a known host's count goes up by one, a new host is added with count 1 at the end of the key order |
| DeliverDelayed.CountByHost | packages/backend/src/server/api/endpoints/admin/queue/deliver-delayed.ts:57-67 | fails exactly on an unparsable URL; otherwise the keys are the hosts in first-seen order and the map is `CountMap` of the hosts |
| DeliverDelayed.SortRows | packages/backend/src/server/api/endpoints/admin/queue/deliver-delayed.ts:77-78 | the rows come back sorted by count, largest first, with the order within every count kept |
| DeliverDelayed.FlagHosts | packages/backend/src/server/api/endpoints/admin/queue/deliver-delayed.ts:69-74 | every host's flag becomes its `isNotResponding`, counts unchanged |
| DeliverDelayed.DeliverDelayedHosts | packages/backend/src/server/api/endpoints/admin/queue/deliver-delayed.ts:54-80 | fails exactly on an unparsable URL; otherwise one row per distinct host with its count and flag, sorted by count with ties in first-seen order, counts summing to the number of jobs |

## Left out

- `deleteMessage` and `postDeleteMessage` (MessagingService.ts:156-177) are outside the modelled core.
- Time is not modelled. The 2-second `setTimeout` of `createMessage` is an explicit `FireUnreadCheck` call that the caller makes later with the same arguments. The id generator and the clock are parameters of `CreateMessage`.
- Database order is not modelled. `findBy` returns rows in the order the model lists them: joinings in table order, and fetched messages in the order of the first listing of each id.
- The message `pack`, ActivityPub rendering, queue delivery, push notifications and notification records are not modelled. They appear only as log entries naming the ids they carry.
- `getHasUnreadMessagingMessage` is not modelled. It is an opaque function of the current table and the user.
- `ReadGroupMessagingMessage` does not check that the listed messages belong to `groupId`. The source does not check this either.
- Promise concurrency is not modelled:
  - `Promise.all` over `federatedInstanceService.fetch` is a sequential loop; the flags it writes do not depend on order.
  - The channels' un-awaited `checkWordMutes(...).then(...)` runs to completion inside `OnNote`.
  - A failing `fetch` is not modelled.
- Object identity is not modelled. The streamed note object shared by all channel instances, which the code mutates in place when re-packing, is a value here. Each channel works on its own copy.
- The RE2 engine is a parameter. It answers `None` when the expression does not compile or `test` throws.
- `Timeline.Services.pack` is not modelled. Whether the packed note is hidden, and what references it has, come from the parameter.
- LocalTimeline.Decide: the `this.user!` dereference for an anonymous viewer and a note with a reply is modelled as a `Failed` verdict (nothing is sent), not as a precondition on the viewer.
- `isUserRelated` and `isInstanceMuted` are parameters. They are not part of this model.
- Strings are sequences of Unicode scalar values, while JavaScript strings are sequences of UTF-16 code units. A lone surrogate cannot be represented, and `trim`, `includes` and the shortcode scan work on whole code points. For well-formed text the two agree.
- Messaging.MessagingService.FireUnreadCheck: runs the corrected group loop (`NotifyEachUnread`, equal to `NotifyUnread`), as does `Messaging.UnreadCheck`, which it is proved against. The source's stop at the first member who has read the message (MessagingService.ts:120-121) is modelled only by `UnreadNotify` and `NotifyUntilRead`. So for joinings `[b, c]` where `b` has read the message, the service notifies `c` where the source notifies nobody; see "## Findings".
- Messaging.NewMessage: the source does not itself ensure that exactly one of `recipientId` and `groupId` is set. Both are copied from the arguments, so exactly one is set only when the caller passes exactly one.

## Findings

| source | as written | input that shows it | evidently intended | confidence | as-written member | corrected member |
|---|---|---|---|---|---|---|
| packages/backend/src/core/MessagingService.ts:120 | in the group branch of the deferred unread check, the first member who has already read the message `return`s from the whole callback, so no later member is notified | group joinings for `b` then `c`, message read by `b` only: `c` has not read it and gets nothing | `continue`: skip only that member. The direct branch's `return` at :103 carries the same "already read" comment and skips its single recipient, and the check exists to tell each member about an unread message | medium; not executed | Messaging.LaterMemberMissesNotification | Messaging.NotifyUnreadMeaning |
