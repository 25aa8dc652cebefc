/**
 * The messaging service: the message table, the stream fan-out on creation,
 * the deferred "unread message" check, marking direct and group messages as
 * read, and the ActivityPub `Read` delivery batching.
 *
 * Streams, push notifications, notification records and ActivityPub
 * deliveries are recorded as entries of an event log; a message object in a
 * payload is identified by its id.
 */
module Messaging {
  import opened Wrappers
  import JsString

  type Id = string

  /** A user as this service sees one; `host` is `None` for a local user. */
  datatype User = User(id: Id, host: Option<string>, inbox: string)

  predicate IsLocal(u: User) { u.host.None? }

  datatype Message = Message(
    id: Id,
    createdAt: nat,
    fileId: Option<Id>,
    recipientId: Option<Id>,
    groupId: Option<Id>,
    text: Option<string>,
    userId: Id,
    isRead: bool,
    readers: seq<Id>,
    uri: Option<string>)

  /** Membership of `userId` in the group `userGroupId`, joined at `createdAt`. */
  datatype Joining = Joining(userId: Id, userGroupId: Id, createdAt: nat)

  datatype Payload =
    | Packed(messageId: Id)
    | Ids(ids: seq<Id>)
    | GroupRead(ids: seq<Id>, reader: Id)
    | OfUser(userId: Id)
    | OfGroup(groupId: Id)
    | ChatMessage(notifierId: Id, messageId: Id)
    | Nothing

  /** The ActivityPub activities this service renders, by the message ids they carry. */
  datatype Activity =
    | CreateNote(noteId: Id)
    | Read(messageId: Id)
    | ReadCollection(totalItems: nat, items: seq<Id>)

  datatype Event =
    | MessagingStream(userId: Id, otherpartyId: Id, name: string, payload: Payload)
    | MessagingIndexStream(userId: Id, name: string, payload: Payload)
    | MainStream(userId: Id, name: string, payload: Payload)
    | GroupMessagingStream(groupId: Id, name: string, payload: Payload)
    | Push(userId: Id, name: string, payload: Payload)
    | Notification(userId: Id, name: string, payload: Payload)
    | Deliver(senderId: Id, activity: Activity, inbox: string)

  datatype Error = DuplicateId | AccessDeniedUser | AccessDeniedGroup

  /** The per-user stream the event goes to, if any. */
  function Addressee(e: Event): Option<Id> {
    match e
    case MessagingStream(u, _, _, _) => Some(u)
    case MessagingIndexStream(u, _, _) => Some(u)
    case MainStream(u, _, _) => Some(u)
    case Push(u, _, _) => Some(u)
    case Notification(u, _, _) => Some(u)
    case _ => None
  }

  // ---------------------------------------------------------------------------
  // createMessage

  /** The record `createMessage` inserts. */
  function NewMessage(id: Id, createdAt: nat, sender: User, recipient: Option<User>, group: Option<Id>,
                      text: Option<string>, file: Option<Id>, uri: Option<string>): (m: Message)
    ensures m.id == id && m.userId == sender.id && m.createdAt == createdAt
    ensures !m.isRead && m.readers == []
    ensures m.recipientId.Some? <==> recipient.Some?
    ensures recipient.Some? ==> m.recipientId == Some(recipient.value.id)
    ensures m.groupId == group && m.fileId == file && m.uri == uri
    ensures m.text.None? <==> (text.None? || text.value == [])
    ensures m.text.Some? ==> m.text.value == JsString.Trim(text.value)
  {
    Message(
      id, createdAt, file,
      if recipient.Some? then Some(recipient.value.id) else None,
      group,
      if text.None? || text.value == [] then None else Some(JsString.Trim(text.value)),
      sender.id, false, [], uri)
  }

  /**
   * The stored text is `null` exactly for a missing or empty input; otherwise
   * it is the input without its leading and trailing whitespace, which is
   * empty exactly when the input is blank.
   */
  lemma NewMessageText(id: Id, createdAt: nat, sender: User, recipient: Option<User>, group: Option<Id>,
                       text: Option<string>, file: Option<Id>, uri: Option<string>)
    ensures var m := NewMessage(id, createdAt, sender, recipient, group, text, file, uri);
      && (m.text.None? <==> (text.None? || text.value == []))
      && (m.text.Some? ==>
            && (m.text.value == [] <==> JsString.AllWhitespace(text.value))
            && (exists i, j :: 0 <= i <= j <= |text.value| && m.text.value == text.value[i..j]
                  && JsString.AllWhitespace(text.value[..i]) && JsString.AllWhitespace(text.value[j..]))
            && (m.text.value != [] ==>
                  !JsString.IsWhitespace(m.text.value[0]) && !JsString.IsWhitespace(m.text.value[|m.text.value| - 1])))
  {
    var m := NewMessage(id, createdAt, sender, recipient, group, text, file, uri);
    if text.Some? && text.value != [] {
      var t := text.value;
      var trimmed := JsString.Trim(t);
      assert m.text == Some(trimmed);
      var i, j := JsString.TrimSlice(t);
      JsString.TrimEmptyIffBlank(t);
      assert trimmed == t[i..j] && JsString.AllWhitespace(t[..i]) && JsString.AllWhitespace(t[j..]);
    }
  }

  /** The three `message` events of one participant of a direct conversation. */
  function MessageEvents(owner: Id, otherparty: Id, messageId: Id): seq<Event> {
    [ MessagingStream(owner, otherparty, "message", Packed(messageId)),
      MessagingIndexStream(owner, "message", Packed(messageId)),
      MainStream(owner, "messagingMessage", Packed(messageId)) ]
  }

  /** Fan-out of a direct message: the local participants' own streams. */
  function DirectFanOut(sender: User, recipient: User, messageId: Id): seq<Event> {
    (if IsLocal(sender) then MessageEvents(sender.id, recipient.id, messageId) else [])
    + (if IsLocal(recipient) then MessageEvents(recipient.id, sender.id, messageId) else [])
  }

  /** The members of `groupId`, in the order of the joinings. */
  function GroupMembers(joinings: seq<Joining>, groupId: Id): (r: seq<Id>)
    ensures forall u :: u in r <==> exists j :: 0 <= j < |joinings| && joinings[j] == Joining(u, groupId, joinings[j].createdAt)
  {
    if joinings == [] then []
    else
      var init := joinings[..|joinings| - 1];
      var last := joinings[|joinings| - 1];
      assert forall j :: 0 <= j < |init| ==> init[j] == joinings[j];
      GroupMembers(init, groupId) + (if last.userGroupId == groupId then [last.userId] else [])
  }

  /** The index and main stream events of each member, member by member. */
  function MemberEvents(members: seq<Id>, messageId: Id): seq<Event> {
    if members == [] then []
    else
      var u := members[|members| - 1];
      MemberEvents(members[..|members| - 1], messageId)
      + [MessagingIndexStream(u, "message", Packed(messageId)), MainStream(u, "messagingMessage", Packed(messageId))]
  }

  /** Fan-out on creation: direct or group. */
  function FanOut(sender: User, recipient: Option<User>, group: Option<Id>, joinings: seq<Joining>, messageId: Id): seq<Event> {
    if recipient.Some? then DirectFanOut(sender, recipient.value, messageId)
    else if group.Some? then
      [GroupMessagingStream(group.value, "message", Packed(messageId))] + MemberEvents(GroupMembers(joinings, group.value), messageId)
    else []
  }

  /** The ActivityPub `Create` delivery of a direct message from a local sender to a remote recipient. */
  function CreateDelivery(sender: User, recipient: Option<User>, messageId: Id): seq<Event> {
    if recipient.Some? && IsLocal(sender) && !IsLocal(recipient.value)
    then [Deliver(sender.id, CreateNote(messageId), recipient.value.inbox)]
    else []
  }

  /**
   * Only local participants of a direct message get stream events, three
   * each, and none of them goes anywhere else.
   */
  lemma DirectFanOutOnlyLocal(sender: User, recipient: User, messageId: Id)
    ensures var es := DirectFanOut(sender, recipient, messageId);
      && |es| == (if IsLocal(sender) then 3 else 0) + (if IsLocal(recipient) then 3 else 0)
      && forall e :: e in es ==>
           (Addressee(e) == Some(sender.id) && IsLocal(sender))
           || (Addressee(e) == Some(recipient.id) && IsLocal(recipient))
  {
  }

  /** Every member gets exactly its index and main stream events, in member order. */
  lemma {:induction false} MemberEventsPerMember(members: seq<Id>, messageId: Id)
    ensures var es := MemberEvents(members, messageId);
      && |es| == 2 * |members|
      && forall k :: 0 <= k < |members| ==>
           es[2 * k] == MessagingIndexStream(members[k], "message", Packed(messageId))
           && es[2 * k + 1] == MainStream(members[k], "messagingMessage", Packed(messageId))
  {
    if members != [] {
      var init := members[..|members| - 1];
      MemberEventsPerMember(init, messageId);
      assert forall k :: 0 <= k < |init| ==> init[k] == members[k];
    }
  }

  /** The ActivityPub delivery happens exactly for a local sender and a remote recipient. */
  lemma CreateDeliveryOnlyToRemote(sender: User, recipient: Option<User>, messageId: Id)
    ensures |CreateDelivery(sender, recipient, messageId)| <= 1
    ensures CreateDelivery(sender, recipient, messageId) != []
        <==> recipient.Some? && IsLocal(sender) && !IsLocal(recipient.value)
    ensures forall e :: e in CreateDelivery(sender, recipient, messageId) ==>
        e == Deliver(sender.id, CreateNote(messageId), recipient.value.inbox)
  {
  }

  // ---------------------------------------------------------------------------
  // The deferred unread check

  /** The unread event, push and `chatMessageReceived` notification for one member. */
  function UnreadEvents(target: Id, m: Message): seq<Event> {
    [ MainStream(target, "unreadMessagingMessage", Packed(m.id)),
      Push(target, "unreadMessagingMessage", Packed(m.id)),
      Notification(target, "chatMessageReceived", ChatMessage(m.userId, m.id)) ]
  }

  /** `UnreadEvents` for each of `targets`, in order. */
  function NotifyAll(targets: seq<Id>, m: Message): seq<Event> {
    if targets == [] then []
    else NotifyAll(targets[..|targets| - 1], m) + UnreadEvents(targets[|targets| - 1], m)
  }

  /**
   * The group loop as written: members are notified in order until the first
   * one that has already read the message, where the whole callback returns.
   */
  function UnreadNotify(members: seq<Id>, readers: seq<Id>, m: Message): seq<Event> {
    if members == [] then []
    else if members[0] in readers then []
    else UnreadEvents(members[0], m) + UnreadNotify(members[1..], readers, m)
  }

  /** The index of the first member that has read the message, or `|members|`. */
  function FirstReader(members: seq<Id>, readers: seq<Id>): (k: nat)
    ensures k <= |members|
    ensures forall j :: 0 <= j < k ==> members[j] !in readers
    ensures k < |members| ==> members[k] in readers
  {
    if members == [] || members[0] in readers then 0
    else 1 + FirstReader(members[1..], readers)
  }

  /** `xs` with every occurrence of `x` taken out, the rest in order. */
  function Without(xs: seq<Id>, x: Id): (r: seq<Id>)
    ensures forall u :: u in r <==> u in xs && u != x
  {
    if xs == [] then []
    else
      var init := xs[..|xs| - 1];
      assert xs == init + [xs[|xs| - 1]];
      Without(init, x) + (if xs[|xs| - 1] == x then [] else [xs[|xs| - 1]])
  }

  lemma WithoutAppend(xs: seq<Id>, x: Id, y: Id)
    ensures Without(xs + [y], x) == Without(xs, x) + (if y == x then [] else [y])
  {
    assert (xs + [y])[..|xs|] == xs;
  }

  /**
   * The members the group check walks through (`userId: Not(user.id)`): the
   * group's members in joining order, with the sender taken out.
   */
  function OtherMembers(joinings: seq<Joining>, groupId: Id, senderId: Id): (r: seq<Id>)
    ensures r == Without(GroupMembers(joinings, groupId), senderId)
    ensures forall u :: u in r <==> u != senderId && u in GroupMembers(joinings, groupId)
  {
    if joinings == [] then []
    else
      var init := joinings[..|joinings| - 1];
      var last := joinings[|joinings| - 1];
      var before := GroupMembers(init, groupId);
      WithoutAppend(before, senderId, last.userId);
      assert GroupMembers(joinings, groupId) == if last.userGroupId == groupId then before + [last.userId] else before;
      OtherMembers(init, groupId, senderId)
      + (if last.userGroupId == groupId && last.userId != senderId then [last.userId] else [])
  }

  /**
   * The body of the deferred check, run for the message `messageId` after
   * creation, with the group loop corrected to skip a member who has read
   * the message (`NotifyUnread`) rather than stop there (`UnreadNotify`).
   */
  function UnreadCheck(messages: map<Id, Message>, joinings: seq<Joining>, mutings: set<(Id, Id)>,
                       messageId: Id, sender: User, recipient: Option<User>, group: Option<Id>): seq<Event>
  {
    if messageId !in messages then []
    else
      var freshMessage := messages[messageId];
      if recipient.Some? && IsLocal(recipient.value) then
        if freshMessage.isRead || (recipient.value.id, sender.id) in mutings then []
        else UnreadEvents(recipient.value.id, freshMessage)
      else if group.Some? then
        NotifyUnread(OtherMembers(joinings, group.value, sender.id), freshMessage.readers, freshMessage)
      else []
  }

  lemma {:induction false} UnreadNotifySplit(members: seq<Id>, readers: seq<Id>, m: Message, k: nat)
    requires k <= |members|
    requires forall j :: 0 <= j < k ==> members[j] !in readers
    ensures UnreadNotify(members, readers, m) == NotifyAll(members[..k], m) + UnreadNotify(members[k..], readers, m)
  {
    if k > 0 {
      UnreadNotifySplit(members, readers, m, k - 1);
      assert members[k - 1..][1..] == members[k..];
      assert members[..k][..k - 1] == members[..k - 1];
    }
  }

  /**
   * The members notified by the group check are exactly those before the
   * first member that has read the message.
   */
  lemma UnreadNotifiesPrefix(members: seq<Id>, readers: seq<Id>, m: Message)
    ensures UnreadNotify(members, readers, m) == NotifyAll(members[..FirstReader(members, readers)], m)
  {
    var k := FirstReader(members, readers);
    UnreadNotifySplit(members, readers, m, k);
    if k == |members| {
      assert members[k..] == [];
    }
  }

  /**
   * A later member that has not read the message still gets nothing once an
   * earlier member has read it: "b" has read, "c" has not, and no event is
   * emitted.
   */
  lemma LaterMemberMissesNotification(m: Message)
    requires m.readers == ["b"]
    ensures "c" !in m.readers
    ensures UnreadNotify(["b", "c"], m.readers, m) == []
  {
  }

  /**
   * The group loop with the read test skipping only that member, as the
   * direct branch's `return` on a read message does for its one recipient:
   * every member that has not read the message is notified, in order.
   */
  function NotifyUnread(members: seq<Id>, readers: seq<Id>, m: Message): seq<Event> {
    if members == [] then []
    else
      var last := members[|members| - 1];
      NotifyUnread(members[..|members| - 1], readers, m) + (if last in readers then [] else UnreadEvents(last, m))
  }

  /**
   * Each member is decided on its own: the events for a list of members are
   * those for its first part followed by those for the rest.
   */
  lemma {:induction false} NotifyUnreadSplits(a: seq<Id>, b: seq<Id>, readers: seq<Id>, m: Message)
    ensures NotifyUnread(a + b, readers, m) == NotifyUnread(a, readers, m) + NotifyUnread(b, readers, m)
    decreases |b|
  {
    if b == [] {
      assert a + b == a;
    } else {
      var init := b[..|b| - 1];
      var last := b[|b| - 1];
      var tail := if last in readers then [] else UnreadEvents(last, m);
      assert (a + b)[..|a + b| - 1] == a + init && (a + b)[|a + b| - 1] == last;
      NotifyUnreadSplits(a, init, readers, m);
      calc {
        NotifyUnread(a + b, readers, m);
        NotifyUnread(a + init, readers, m) + tail;
        NotifyUnread(a, readers, m) + NotifyUnread(init, readers, m) + tail;
        NotifyUnread(a, readers, m) + (NotifyUnread(init, readers, m) + tail);
      }
    }
  }

  /**
   * Every member that has not read the message gets its three events, and
   * every event emitted belongs to such a member.
   */
  lemma {:induction false} NotifyUnreadMeaning(members: seq<Id>, readers: seq<Id>, m: Message)
    ensures forall u :: u in members && u !in readers ==>
      forall e :: e in UnreadEvents(u, m) ==> e in NotifyUnread(members, readers, m)
    ensures forall e :: e in NotifyUnread(members, readers, m) ==>
      exists u :: u in members && u !in readers && e in UnreadEvents(u, m)
  {
    if members != [] {
      var init := members[..|members| - 1];
      var last := members[|members| - 1];
      assert members == init + [last];
      NotifyUnreadMeaning(init, readers, m);
    }
  }

  /**
   * On the input where the loop as written stops early, "c" has not read the
   * message and is notified.
   */
  lemma LaterMemberNotified(m: Message)
    requires m.readers == ["b"]
    ensures NotifyUnread(["b", "c"], m.readers, m) == UnreadEvents("c", m)
  {
    var bc: seq<Id> := ["b", "c"];
    assert bc[..1] == ["b"] && ["b"][..0] == [] && bc[1] == "c";
    assert "c" !in m.readers;
    assert NotifyUnread(["b"], m.readers, m) == [];
    assert NotifyUnread(bc, m.readers, m) == NotifyUnread(["b"], m.readers, m) + UnreadEvents("c", m);
  }

  /** A message deleted before the check runs produces nothing, whoever it was sent to. */
  lemma UnreadCheckDeletedMessage(messages: map<Id, Message>, joinings: seq<Joining>, mutings: set<(Id, Id)>,
                                  messageId: Id, sender: User)
    requires messageId !in messages
    ensures forall recipient, group :: UnreadCheck(messages, joinings, mutings, messageId, sender, recipient, group) == []
  {
  }

  /** Nothing happens for a deleted message, or for a read or muted direct message. */
  lemma UnreadCheckSilentCases(messages: map<Id, Message>, joinings: seq<Joining>, mutings: set<(Id, Id)>,
                               messageId: Id, sender: User, recipient: User)
    requires IsLocal(recipient)
    requires messageId !in messages
          || messages[messageId].isRead
          || (recipient.id, sender.id) in mutings
    ensures forall group :: UnreadCheck(messages, joinings, mutings, messageId, sender, Some(recipient), group) == []
  {
  }

  /**
   * An unread, unmuted direct message to a local recipient produces one
   * unread event, one push and one notification, all for the recipient.
   */
  lemma UnreadCheckDirect(messages: map<Id, Message>, joinings: seq<Joining>, mutings: set<(Id, Id)>,
                          messageId: Id, sender: User, recipient: User, group: Option<Id>)
    requires IsLocal(recipient) && messageId in messages
    requires !messages[messageId].isRead && (recipient.id, sender.id) !in mutings
    ensures var es := UnreadCheck(messages, joinings, mutings, messageId, sender, Some(recipient), group);
      && |es| == 3
      && (forall e :: e in es ==> Addressee(e) == Some(recipient.id))
      && es[0].MainStream? && es[1].Push? && es[2].Notification?
  {
  }

  // ---------------------------------------------------------------------------
  // readUserMessagingMessage

  predicate Denies(messages: map<Id, Message>, id: Id, userId: Id) {
    id in messages && messages[id].recipientId != Some(userId)
  }

  /** Some listed message is not addressed to `userId`. */
  predicate AccessDenied(messages: map<Id, Message>, ids: seq<Id>, userId: Id) {
    exists i :: 0 <= i < |ids| && Denies(messages, ids[i], userId)
  }

  /** The rows the direct-message update touches. */
  predicate MarksRead(messages: map<Id, Message>, id: Id, ids: seq<Id>, otherpartyId: Id, userId: Id)
    requires id in messages
  {
    id in ids && messages[id].userId == otherpartyId && messages[id].recipientId == Some(userId) && !messages[id].isRead
  }

  /** The table after the direct-message update. */
  function MarkRead(messages: map<Id, Message>, ids: seq<Id>, otherpartyId: Id, userId: Id): map<Id, Message> {
    map id | id in messages ::
      if MarksRead(messages, id, ids, otherpartyId, userId) then messages[id].(isRead := true) else messages[id]
  }

  /** A message from `otherpartyId` to `userId` is still unread. */
  predicate RoomUnread(messages: map<Id, Message>, otherpartyId: Id, userId: Id) {
    exists id :: id in messages && messages[id].userId == otherpartyId && messages[id].recipientId == Some(userId) && !messages[id].isRead
  }

  function ReadUserEvents(after: map<Id, Message>, userId: Id, otherpartyId: Id, ids: seq<Id>, hasUnread: bool): seq<Event> {
    [ MessagingStream(otherpartyId, userId, "read", Ids(ids)),
      MessagingIndexStream(userId, "read", Ids(ids)) ]
    + if !hasUnread then
        [ MainStream(userId, "readAllMessagingMessages", Nothing),
          Push(userId, "readAllMessagingMessages", Nothing) ]
      else if !RoomUnread(after, otherpartyId, userId) then
        [ Push(userId, "readAllMessagingMessagesOfARoom", OfUser(otherpartyId)) ]
      else []
  }

  /**
   * The update sets `isRead` exactly on the listed unread messages from
   * `otherpartyId` to `userId`; every other field and every other row stays.
   */
  lemma MarkReadOnlyMatching(messages: map<Id, Message>, ids: seq<Id>, otherpartyId: Id, userId: Id)
    ensures var after := MarkRead(messages, ids, otherpartyId, userId);
      && after.Keys == messages.Keys
      && forall id :: id in messages ==>
           && after[id] == messages[id].(isRead := after[id].isRead)
           && (after[id].isRead <==>
                 (|| messages[id].isRead
                  || (id in ids && messages[id].userId == otherpartyId && messages[id].recipientId == Some(userId))))
  {
  }

  /** Marking the same messages twice is the same as marking them once. */
  lemma MarkReadIdempotent(messages: map<Id, Message>, ids: seq<Id>, otherpartyId: Id, userId: Id)
    ensures var once := MarkRead(messages, ids, otherpartyId, userId);
      MarkRead(once, ids, otherpartyId, userId) == once
  {
    var once := MarkRead(messages, ids, otherpartyId, userId);
    var twice := MarkRead(once, ids, otherpartyId, userId);
    assert twice.Keys == once.Keys;
    forall id | id in once ensures twice[id] == once[id] {
      assert !MarksRead(once, id, ids, otherpartyId, userId);
    }
  }

  /**
   * Listing every unread message of a room marks the room read, so when other
   * unread messages remain elsewhere the room event is the one emitted.
   */
  lemma ReadWholeRoom(messages: map<Id, Message>, ids: seq<Id>, otherpartyId: Id, userId: Id)
    requires forall id ::
      (id in messages && messages[id].userId == otherpartyId
       && messages[id].recipientId == Some(userId) && !messages[id].isRead) ==> id in ids
    ensures var after := MarkRead(messages, ids, otherpartyId, userId);
      && !RoomUnread(after, otherpartyId, userId)
      && ReadUserEvents(after, userId, otherpartyId, ids, true)[2..]
           == [Push(userId, "readAllMessagingMessagesOfARoom", OfUser(otherpartyId))]
  {
    var after := MarkRead(messages, ids, otherpartyId, userId);
    forall id | id in after && after[id].userId == otherpartyId && after[id].recipientId == Some(userId)
      ensures after[id].isRead
    {
      if !messages[id].isRead {
        assert MarksRead(messages, id, ids, otherpartyId, userId);
      }
    }
  }

  // ---------------------------------------------------------------------------
  // readGroupMessagingMessage

  /** The caller's joining of the group (`findOneBy`), if any. */
  function FindJoining(joinings: seq<Joining>, userId: Id, groupId: Id): (r: Option<Joining>)
    ensures r.Some? ==> r.value in joinings && r.value.userId == userId && r.value.userGroupId == groupId
    ensures r.None? ==> forall j :: 0 <= j < |joinings| ==> !(joinings[j].userId == userId && joinings[j].userGroupId == groupId)
  {
    if joinings == [] then None
    else if joinings[0].userId == userId && joinings[0].userGroupId == groupId then Some(joinings[0])
    else
      var r := FindJoining(joinings[1..], userId, groupId);
      assert forall j :: 1 <= j < |joinings| ==> joinings[j] == joinings[1..][j - 1];
      r
  }

  predicate Distinct(s: seq<Id>) {
    forall i, j :: 0 <= i < j < |s| ==> s[i] != s[j]
  }

  /** The rows `findBy({ id: In(ids) })` returns: each listed, existing message once. */
  function Fetched(messages: map<Id, Message>, ids: seq<Id>): (r: seq<Id>)
    ensures Distinct(r)
    ensures forall id :: id in r <==> id in ids && id in messages
  {
    if ids == [] then []
    else
      var init := ids[..|ids| - 1];
      var id := ids[|ids| - 1];
      assert ids == init + [id];
      var f := Fetched(messages, init);
      if id in f || id !in messages then f else f + [id]
  }

  /** Whether `userId` reads the message now: it is not theirs and they have not read it. */
  predicate Unread(m: Message, userId: Id) {
    m.userId != userId && userId !in m.readers
  }

  /** The ids the group loop reads, in order. */
  function NewlyRead(messages: map<Id, Message>, fetched: seq<Id>, userId: Id): (r: seq<Id>)
    requires forall id :: id in fetched ==> id in messages
    ensures forall id :: id in r <==> id in fetched && Unread(messages[id], userId)
  {
    if fetched == [] then []
    else
      var init := fetched[..|fetched| - 1];
      var id := fetched[|fetched| - 1];
      assert fetched == init + [id];
      NewlyRead(messages, init, userId) + (if Unread(messages[id], userId) then [id] else [])
  }

  /** The table after appending `userId` to the `reads` of each of `readIds`. */
  function AddReader(messages: map<Id, Message>, readIds: seq<Id>, userId: Id): map<Id, Message> {
    map id | id in messages ::
      if id in readIds then messages[id].(readers := messages[id].readers + [userId]) else messages[id]
  }

  /** An unread message of the group, sent after the caller joined. */
  predicate GroupUnread(messages: map<Id, Message>, groupId: Id, userId: Id, joinedAt: nat) {
    exists id :: id in messages && messages[id].groupId == Some(groupId)
      && Unread(messages[id], userId) && messages[id].createdAt > joinedAt
  }

  function ReadGroupEvents(after: map<Id, Message>, userId: Id, groupId: Id, joinedAt: nat, readIds: seq<Id>, hasUnread: bool): seq<Event> {
    [ GroupMessagingStream(groupId, "read", GroupRead(readIds, userId)),
      MessagingIndexStream(userId, "read", Ids(readIds)) ]
    + if !hasUnread then
        [ MainStream(userId, "readAllMessagingMessages", Nothing),
          Push(userId, "readAllMessagingMessages", Nothing) ]
      else if !GroupUnread(after, groupId, userId, joinedAt) then
        [ Push(userId, "readAllMessagingMessagesOfARoom", OfGroup(groupId)) ]
      else []
  }

  /**
   * Every fetched message not sent by the caller has the caller in `reads`
   * afterwards, exactly once when it was added now; a message already read
   * by the caller, and every unlisted one, is unchanged.
   */
  lemma ReaderRecordedOnce(messages: map<Id, Message>, fetched: seq<Id>, userId: Id)
    requires forall id :: id in fetched ==> id in messages
    ensures var after := AddReader(messages, NewlyRead(messages, fetched, userId), userId);
      && after.Keys == messages.Keys
      && (forall id :: id in fetched && messages[id].userId != userId ==> userId in after[id].readers)
      && (forall id :: id in messages && Unread(messages[id], userId) && id in fetched ==>
            after[id].readers == messages[id].readers + [userId]
            && multiset(after[id].readers)[userId] == 1)
      && (forall id :: id in messages && !(id in fetched && Unread(messages[id], userId)) ==> after[id] == messages[id])
  {
    var after := AddReader(messages, NewlyRead(messages, fetched, userId), userId);
    forall id | id in messages && Unread(messages[id], userId) && id in fetched
      ensures multiset(after[id].readers)[userId] == 1
    {
      assert multiset(messages[id].readers)[userId] == 0;
    }
  }

  /** Reading the same messages again reads nothing. */
  lemma SecondGroupReadIsEmpty(messages: map<Id, Message>, fetched: seq<Id>, userId: Id)
    requires forall id :: id in fetched ==> id in messages
    ensures var after := AddReader(messages, NewlyRead(messages, fetched, userId), userId);
      NewlyRead(after, fetched, userId) == []
  {
    var after := AddReader(messages, NewlyRead(messages, fetched, userId), userId);
    ReaderRecordedOnce(messages, fetched, userId);
    NothingUnreadReadsNothing(after, fetched, userId);
  }

  lemma {:induction false} NothingUnreadReadsNothing(messages: map<Id, Message>, fetched: seq<Id>, userId: Id)
    requires forall id :: id in fetched ==> id in messages && !Unread(messages[id], userId)
    ensures NewlyRead(messages, fetched, userId) == []
  {
    if fetched != [] {
      var init := fetched[..|fetched| - 1];
      assert forall id :: id in init ==> id in fetched;
      NothingUnreadReadsNothing(messages, init, userId);
    }
  }

  /** Every row of the message table is stored under its own id. */
  ghost predicate StoredUnderOwnId(messages: map<Id, Message>) {
    forall id :: id in messages ==> messages[id].id == id
  }

  /** One more fetched message: it is read now exactly when it is unread, and it is untouched so far. */
  lemma AddReaderStep(messages: map<Id, Message>, fetched: seq<Id>, k: nat, userId: Id)
    requires k < |fetched| && Distinct(fetched)
    requires forall id :: id in fetched ==> id in messages
    ensures var readIds := NewlyRead(messages, fetched[..k], userId);
      var id := fetched[k];
      && id !in readIds
      && NewlyRead(messages, fetched[..k + 1], userId)
           == readIds + (if Unread(messages[id], userId) then [id] else [])
      && AddReader(messages, readIds, userId)[id] == messages[id]
      && AddReader(messages, readIds + [id], userId)
           == AddReader(messages, readIds, userId)[id := messages[id].(readers := messages[id].readers + [userId])]
  {
    assert fetched[..k + 1][..k] == fetched[..k];
    assert fetched[k] !in fetched[..k];
  }

  /** Adding a reader keeps every message filed under its own id. */
  lemma AddReaderKeepsIds(messages: map<Id, Message>, readIds: seq<Id>, userId: Id)
    requires StoredUnderOwnId(messages)
    ensures AddReader(messages, readIds, userId).Keys == messages.Keys
    ensures StoredUnderOwnId(AddReader(messages, readIds, userId))
  {
  }

  /**
   * The loop over the fetched messages of a group read: the caller joins the
   * `reads` of each message that is not theirs and that they have not read.
   */
  method AddReaderToEach(messages: map<Id, Message>, fetched: seq<Id>, userId: Id)
    returns (readIds: seq<Id>, table: map<Id, Message>)
    requires Distinct(fetched) && forall id :: id in fetched ==> id in messages
    ensures readIds == NewlyRead(messages, fetched, userId)
    ensures table == AddReader(messages, readIds, userId)
  {
    readIds := [];
    table := messages;
    var k := 0;
    while k < |fetched|
      invariant 0 <= k <= |fetched|
      invariant readIds == NewlyRead(messages, fetched[..k], userId)
      invariant table == AddReader(messages, readIds, userId)
    {
      var id := fetched[k];
      AddReaderStep(messages, fetched, k, userId);
      var message := table[id];
      if message.userId != userId && userId !in message.readers {
        table := table[id := message.(readers := message.readers + [userId])];
        readIds := readIds + [id];
      }
      k := k + 1;
    }
    assert fetched[..k] == fetched;
  }

  // ---------------------------------------------------------------------------
  // deliverReadActivity

  /** The messages whose `uri` is truthy (present and not empty), in order. */
  function WithUri(ms: seq<Message>): (r: seq<Message>)
    ensures forall m :: m in r <==> m in ms && JsString.IsTruthy(m.uri)
  {
    if ms == [] then []
    else
      var init := ms[..|ms| - 1];
      assert ms == init + [ms[|ms| - 1]];
      WithUri(init) + (if JsString.IsTruthy(ms[|ms| - 1].uri) then [ms[|ms| - 1]] else [])
  }

  function IdsOf(ms: seq<Message>): (r: seq<Id>)
    ensures |r| == |ms| && forall i :: 0 <= i < |ms| ==> r[i] == ms[i].id
  {
    if ms == [] then [] else [ms[0].id] + IdsOf(ms[1..])
  }

  /** One `Read` delivery per item. */
  function ReadEach(senderId: Id, inbox: string, items: seq<Message>): seq<Event> {
    if items == [] then []
    else ReadEach(senderId, inbox, items[..|items| - 1]) + [Deliver(senderId, Read(items[|items| - 1].id), inbox)]
  }

  function ReadDeliveries(senderId: Id, inbox: string, ms: seq<Message>): seq<Event> {
    var items := WithUri(ms);
    if |items| > 1 then [Deliver(senderId, ReadCollection(|items|, IdsOf(items)), inbox)]
    else ReadEach(senderId, inbox, items)
  }

  /**
   * At most one delivery is ever made: a collection of all messages with a
   * non-empty `uri` when there are several, a single `Read` for exactly one,
   * and nothing when none has one.
   */
  lemma AtMostOneReadDelivery(senderId: Id, inbox: string, ms: seq<Message>)
    ensures var ds := ReadDeliveries(senderId, inbox, ms);
      var items := WithUri(ms);
      && |ds| == (if items == [] then 0 else 1)
      && (items == [] <==> forall m :: m in ms ==> !JsString.IsTruthy(m.uri))
      && (|items| == 1 ==> ds == [Deliver(senderId, Read(items[0].id), inbox)])
      && (|items| > 1 ==> ds == [Deliver(senderId, ReadCollection(|items|, IdsOf(items)), inbox)])
  {
    var items := WithUri(ms);
    if items == [] {
      assert forall m :: m in ms ==> m !in items;
    } else {
      assert items[0] in items;
      if |items| == 1 {
        assert items[..0] == [];
      }
    }
  }

  /**
   * The loop over the other members in the deferred check: each is notified
   * in turn, and the first one that has read the message ends the callback.
   */
  method NotifyUntilRead(members: seq<Id>, m: Message) returns (published: seq<Event>)
    ensures published == UnreadNotify(members, m.readers, m)
  {
    published := [];
    var k := 0;
    while k < |members|
      invariant 0 <= k <= |members|
      invariant forall j :: 0 <= j < k ==> members[j] !in m.readers
      invariant published == NotifyAll(members[..k], m)
    {
      if members[k] in m.readers {
        UnreadNotifySplit(members, m.readers, m, k);
        return;
      }
      assert members[..k + 1][..k] == members[..k];
      published := published + UnreadEvents(members[k], m);
      k := k + 1;
    }
    UnreadNotifySplit(members, m.readers, m, k);
    assert members[..k] == members && members[k..] == [];
  }

  /** The member loop of the deferred check with a read member skipped (`NotifyUnread`). */
  method NotifyEachUnread(members: seq<Id>, m: Message) returns (published: seq<Event>)
    ensures published == NotifyUnread(members, m.readers, m)
  {
    published := [];
    var k := 0;
    while k < |members|
      invariant 0 <= k <= |members|
      invariant published == NotifyUnread(members[..k], m.readers, m)
    {
      assert members[..k + 1][..k] == members[..k];
      if members[k] !in m.readers {
        published := published + UnreadEvents(members[k], m);
      }
      k := k + 1;
    }
    assert members[..k] == members;
  }

  /** The loop over the group's joinings that publishes to each member's streams. */
  method PublishToMembers(joinings: seq<Joining>, groupId: Id, messageId: Id) returns (published: seq<Event>)
    ensures published == MemberEvents(GroupMembers(joinings, groupId), messageId)
  {
    published := [];
    var k := 0;
    while k < |joinings|
      invariant 0 <= k <= |joinings|
      invariant published == MemberEvents(GroupMembers(joinings[..k], groupId), messageId)
    {
      var joining := joinings[k];
      assert joinings[..k + 1][..k] == joinings[..k];
      var before := GroupMembers(joinings[..k], groupId);
      assert joinings[..k + 1][k] == joining;
      if joining.userGroupId != groupId {
        assert GroupMembers(joinings[..k + 1], groupId) == before;
      } else {
        assert GroupMembers(joinings[..k + 1], groupId) == before + [joining.userId];
        assert (before + [joining.userId])[..|before|] == before;
        published := published + [MessagingIndexStream(joining.userId, "message", Packed(messageId)),
                                  MainStream(joining.userId, "messagingMessage", Packed(messageId))];
      }
      k := k + 1;
    }
    assert joinings[..k] == joinings;
  }

  // ---------------------------------------------------------------------------
  // The service

  class MessagingService {
    var messages: map<Id, Message>
    var joinings: seq<Joining>
    var mutings: set<(Id, Id)>
    var events: seq<Event>
    /** `getHasUnreadMessagingMessage`, asked of the current table. */
    const hasUnreadMessaging: (map<Id, Message>, Id) -> bool

    ghost predicate Valid()
      reads this
    {
      StoredUnderOwnId(messages)
    }

    constructor(joinings: seq<Joining>, mutings: set<(Id, Id)>, hasUnreadMessaging: (map<Id, Message>, Id) -> bool)
      ensures Valid()
      ensures this.messages == map[] && this.events == []
      ensures this.joinings == joinings && this.mutings == mutings
      ensures this.hasUnreadMessaging == hasUnreadMessaging
    {
      this.messages := map[];
      this.joinings := joinings;
      this.mutings := mutings;
      this.events := [];
      this.hasUnreadMessaging := hasUnreadMessaging;
    }

    /**
     * Inserts the new message, publishes it to the streams, and queues the
     * ActivityPub delivery to a remote recipient. The insert fails on an id
     * already in the table, and nothing else happens then.
     */
    method CreateMessage(id: Id, now: nat, sender: User, recipient: Option<User>, group: Option<Id>,
                         text: Option<string>, file: Option<Id>, uri: Option<string>)
      returns (r: Outcome<Error>)
      requires Valid()
      modifies this
      ensures Valid()
      ensures joinings == old(joinings) && mutings == old(mutings)
      ensures id in old(messages) ==> r == Fail(DuplicateId) && messages == old(messages) && events == old(events)
      ensures id !in old(messages) ==>
        && r == Pass
        && messages == old(messages)[id := NewMessage(id, now, sender, recipient, group, text, file, uri)]
        && events == old(events) + FanOut(sender, recipient, group, joinings, id) + CreateDelivery(sender, recipient, id)
    {
      if id in messages {
        return Fail(DuplicateId);
      }
      var m := NewMessage(id, now, sender, recipient, group, text, file, uri);
      var published: seq<Event> := [];
      if recipient.Some? {
        if IsLocal(sender) {
          published := published + MessageEvents(sender.id, recipient.value.id, id);
        }
        if IsLocal(recipient.value) {
          published := published + MessageEvents(recipient.value.id, sender.id, id);
        }
      } else if group.Some? {
        var memberEvents := PublishToMembers(joinings, group.value, id);
        published := [GroupMessagingStream(group.value, "message", Packed(id))] + memberEvents;
      }
      if recipient.Some? && IsLocal(sender) && !IsLocal(recipient.value) {
        published := published + [Deliver(sender.id, CreateNote(id), recipient.value.inbox)];
      }
      messages, events := messages[id := m], events + published;
      r := Pass;
    }

    /** The callback the creation schedules, run later for the same arguments. */
    method FireUnreadCheck(messageId: Id, sender: User, recipient: Option<User>, group: Option<Id>)
      modifies this
      ensures messages == old(messages) && joinings == old(joinings) && mutings == old(mutings)
      ensures events == old(events) + UnreadCheck(messages, joinings, mutings, messageId, sender, recipient, group)
    {
      if messageId !in messages {
        return;
      }
      var freshMessage := messages[messageId];
      if recipient.Some? && IsLocal(recipient.value) {
        if freshMessage.isRead {
          return;
        }
        if (recipient.value.id, sender.id) in mutings {
          return;
        }
        events := events + UnreadEvents(recipient.value.id, freshMessage);
      } else if group.Some? {
        var members := OtherMembers(joinings, group.value, sender.id);
        var published := NotifyEachUnread(members, freshMessage);
        events := events + published;
      }
    }

    /**
     * Marks the listed direct messages from `otherpartyId` to `userId` as
     * read; denied when a listed message is not addressed to `userId`.
     */
    method ReadUserMessagingMessage(userId: Id, otherpartyId: Id, messageIds: seq<Id>) returns (r: Outcome<Error>)
      requires Valid()
      modifies this
      ensures Valid()
      ensures joinings == old(joinings) && mutings == old(mutings)
      ensures r == (if messageIds != [] && AccessDenied(old(messages), messageIds, userId) then Fail(AccessDeniedUser) else Pass)
      ensures (messageIds == [] || r.Fail?) ==> messages == old(messages) && events == old(events)
      ensures messageIds != [] && r.Pass? ==>
        && messages == MarkRead(old(messages), messageIds, otherpartyId, userId)
        && events == old(events) + ReadUserEvents(messages, userId, otherpartyId, messageIds, hasUnreadMessaging(messages, userId))
    {
      if |messageIds| == 0 {
        return Pass;
      }
      var i := 0;
      while i < |messageIds|
        invariant 0 <= i <= |messageIds|
        invariant forall j :: 0 <= j < i ==> !Denies(messages, messageIds[j], userId)
      {
        if messageIds[i] in messages && messages[messageIds[i]].recipientId != Some(userId) {
          return Fail(AccessDeniedUser);
        }
        i := i + 1;
      }
      messages := MarkRead(messages, messageIds, otherpartyId, userId);
      events := events + [MessagingStream(otherpartyId, userId, "read", Ids(messageIds)),
                          MessagingIndexStream(userId, "read", Ids(messageIds))];
      if !hasUnreadMessaging(messages, userId) {
        events := events + [MainStream(userId, "readAllMessagingMessages", Nothing),
                            Push(userId, "readAllMessagingMessages", Nothing)];
      } else if !RoomUnread(messages, otherpartyId, userId) {
        events := events + [Push(userId, "readAllMessagingMessagesOfARoom", OfUser(otherpartyId))];
      }
      r := Pass;
    }

    /**
     * Adds `userId` to the `reads` of each listed message that is not theirs
     * and not yet read by them, and returns those ids; denied when `userId`
     * has not joined the group.
     */
    method ReadGroupMessagingMessage(userId: Id, groupId: Id, messageIds: seq<Id>) returns (r: Outcome<Error>, readIds: seq<Id>)
      requires Valid()
      modifies this
      ensures Valid()
      ensures joinings == old(joinings) && mutings == old(mutings)
      ensures messageIds == [] ==> r == Pass && readIds == [] && messages == old(messages) && events == old(events)
      ensures messageIds != [] && FindJoining(joinings, userId, groupId).None? ==>
        r == Fail(AccessDeniedGroup) && readIds == [] && messages == old(messages) && events == old(events)
      ensures messageIds != [] && FindJoining(joinings, userId, groupId).Some? ==>
        && r == Pass
        && readIds == NewlyRead(old(messages), Fetched(old(messages), messageIds), userId)
        && messages == AddReader(old(messages), readIds, userId)
        && events == old(events) + ReadGroupEvents(messages, userId, groupId,
             FindJoining(joinings, userId, groupId).value.createdAt, readIds, hasUnreadMessaging(messages, userId))
    {
      readIds := [];
      if |messageIds| == 0 {
        return Pass, readIds;
      }
      var joining := FindJoining(joinings, userId, groupId);
      if joining.None? {
        return Fail(AccessDeniedGroup), readIds;
      }
      var fetched := Fetched(messages, messageIds);
      var table;
      readIds, table := AddReaderToEach(messages, fetched, userId);
      AddReaderKeepsIds(messages, readIds, userId);
      var published := [GroupMessagingStream(groupId, "read", GroupRead(readIds, userId)),
                        MessagingIndexStream(userId, "read", Ids(readIds))];
      if !hasUnreadMessaging(table, userId) {
        published := published + [MainStream(userId, "readAllMessagingMessages", Nothing),
                                  Push(userId, "readAllMessagingMessages", Nothing)];
      } else if !GroupUnread(table, groupId, userId, joining.value.createdAt) {
        published := published + [Push(userId, "readAllMessagingMessagesOfARoom", OfGroup(groupId))];
      }
      assert published == ReadGroupEvents(table, userId, groupId, joining.value.createdAt, readIds, hasUnreadMessaging(table, userId));
      messages, events := table, events + published;
      r := Pass;
    }

    /** Delivers `Read` activities for the messages that came over ActivityPub. */
    method DeliverReadActivity(senderId: Id, recipient: User, ms: seq<Message>)
      modifies this
      ensures messages == old(messages) && joinings == old(joinings) && mutings == old(mutings)
      ensures events == old(events) + ReadDeliveries(senderId, recipient.inbox, ms)
    {
      var contents := WithUri(ms);
      if |contents| > 1 {
        events := events + [Deliver(senderId, ReadCollection(|contents|, IdsOf(contents)), recipient.inbox)];
      } else {
        var k := 0;
        while k < |contents|
          invariant 0 <= k <= |contents|
          invariant messages == old(messages) && joinings == old(joinings) && mutings == old(mutings)
          invariant events == old(events) + ReadEach(senderId, recipient.inbox, contents[..k])
        {
          assert contents[..k + 1][..k] == contents[..k];
          events := events + [Deliver(senderId, Read(contents[k].id), recipient.inbox)];
          k := k + 1;
        }
        assert contents[..k] == contents;
      }
    }
  }
}
