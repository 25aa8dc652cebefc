/**
 * The local timeline channel (`localTimeline`): public notes by local users.
 * It does not require a signed-in viewer.
 */
module LocalTimeline {
  import opened Wrappers
  import opened Timeline

  /** A local, public note outside channels, or one in a followed channel. */
  predicate InScope(viewer: Viewer, note: Note) {
    && note.userHost.None?
    && note.visibility == Public
    && (note.channelId.Some? ==> note.channelId.value in viewer.followingChannels)
  }

  /**
   * What `onNote` does with a note on `notesStream`. The reply-relevance rule
   * reads `this.user!` as soon as the packed note has a reply, so for an
   * anonymous viewer such a note makes the handler fail.
   */
  function Decide(svc: Services, viewer: Viewer, note: Note): Decision {
    if note.userHost.Some? then Dropped
    else if note.visibility != Public then Dropped
    else if note.channelId.Some? && note.channelId.value !in viewer.followingChannels then Dropped
    else
      var n := PackReferences(svc, viewer, note);
      if n.reply.Some? && viewer.user.None? then Failed
      else if viewer.user.Some? && IrrelevantReply(n, viewer.user.value) then Dropped
      else if RelatedToMutedOrBlocked(svc, viewer, n) then Dropped
      else if WordMuted(svc, viewer, n, false) then Dropped
      else Sent(PackReferences(svc, viewer, n))
  }

  /** A note by a remote author is never delivered. */
  lemma RemoteNoteNeverDelivered(svc: Services, viewer: Viewer, note: Note)
    requires note.userHost.Some?
    ensures Decide(svc, viewer, note) == Dropped
  {
  }

  /** A note that is not public is never delivered. */
  lemma NonPublicNoteNeverDelivered(svc: Services, viewer: Viewer, note: Note)
    requires note.visibility != Public
    ensures Decide(svc, viewer, note) == Dropped
  {
  }

  /**
   * The follow graph plays no part: two viewers that differ only in whom they
   * follow get the same decision for every note.
   */
  lemma IgnoresFollowGraph(svc: Services, viewer: Viewer, following: set<Id>, note: Note)
    ensures Decide(svc, viewer.(following := following), note) == Decide(svc, viewer, note)
  {
    var other := viewer.(following := following);
    assert ViewerId(other) == ViewerId(viewer);
    assert MutedInstances(other) == MutedInstances(viewer);
    assert PackReferences(svc, other, note) == PackReferences(svc, viewer, note);
  }

  /** The handler fails only for an anonymous viewer and an in-scope note whose packed form has a reply. */
  lemma FailsOnlyForAnonymousReply(svc: Services, viewer: Viewer, note: Note)
    ensures Decide(svc, viewer, note) == Failed <==>
      InScope(viewer, note) && viewer.user.None? && PackReferences(svc, viewer, note).reply.Some?
  {
  }

  /**
   * A note is sent exactly when it is in scope and passes the reply,
   * mute/block and word-mute stages (with no manual note-mute check). A
   * summary of the stages in one place; the lemmas above state what each
   * stage guarantees on its own.
   */
  lemma DeliveredIff(svc: Services, viewer: Viewer, note: Note)
    ensures Decide(svc, viewer, note).Sent? <==> (
      var n := PackReferences(svc, viewer, note);
      && InScope(viewer, note)
      && (n.reply.Some? ==> viewer.user.Some? && !IrrelevantReply(n, viewer.user.value))
      && !svc.isUserRelated(n, viewer.muting)
      && !svc.isUserRelated(n, viewer.blocking)
      && !WordMuted(svc, viewer, n, false))
  {
  }

  /**
   * One channel instance. `listeners` counts the registrations of this
   * instance's `onNote` on `notesStream`; `cached` and `sent` record what the
   * instance handed to its connection.
   */
  class LocalTimelineChannel {
    const svc: Services
    const viewer: Viewer
    var listeners: nat
    var cached: seq<Note>
    var sent: seq<(string, Note)>

    constructor (svc: Services, viewer: Viewer)
      ensures this.svc == svc && this.viewer == viewer
      ensures listeners == 0 && cached == [] && sent == []
    {
      this.svc := svc;
      this.viewer := viewer;
      listeners := 0;
      cached := [];
      sent := [];
    }

    predicate Subscribed()
      reads this
    {
      listeners > 0
    }

    /** `init`: subscribes only when the viewer's role policy has `ltlAvailable`. */
    method Init()
      modifies this`listeners
      ensures listeners == if svc.ltlAvailable(ViewerId(viewer)) then old(listeners) + 1 else old(listeners)
    {
      if !svc.ltlAvailable(ViewerId(viewer)) {
        return;
      }
      listeners := listeners + 1;
    }

    /** `dispose`: unregisters the handler `init` registered; a second call changes nothing. */
    method Dispose()
      modifies this`listeners
      ensures listeners == if old(listeners) > 0 then old(listeners) - 1 else 0
    {
      if listeners > 0 {
        listeners := listeners - 1;
      }
    }

    /** The stages of `onNote` before anything is sent: its verdict on the note. */
    method Screen(note: Note) returns (decision: Decision)
      ensures decision == Decide(svc, viewer, note)
    {
      if note.userHost.Some? { return Dropped; }
      if note.visibility != Public { return Dropped; }
      if note.channelId.Some? && note.channelId.value !in viewer.followingChannels { return Dropped; }
      var me := ViewerId(viewer);
      var n := note;
      if n.replyId.Some? {
        n := n.(reply := Some(svc.pack(n.replyId.value, me)));
      }
      if n.renoteId.Some? {
        n := n.(renote := Some(svc.pack(n.renoteId.value, me)));
      }
      assert n == PackReferences(svc, viewer, note);
      if n.reply.Some? {
        if viewer.user.None? { return Failed; }
        var user := viewer.user.value;
        var reply := n.reply.value;
        if !user.showTimelineReplies && reply.userId != user.id && n.userId != user.id && reply.userId != n.userId {
          return Dropped;
        }
      }
      if svc.isUserRelated(n, viewer.muting) { return Dropped; }
      if svc.isUserRelated(n, viewer.blocking) { return Dropped; }
      var muted, packed := CheckWordMutes(svc, viewer, n, false);
      if muted { return Dropped; }
      return Sent(packed);
    }

    /**
     * `onNote`, which runs only while the handler is registered: a note that
     * passes every stage is cached and sent once as `'note'`; a dropped note,
     * or one on which the handler fails, leaves both logs as they were.
     */
    method OnNote(note: Note) returns (decision: Decision)
      requires Subscribed()
      modifies this`cached, this`sent
      ensures decision == Decide(svc, viewer, note)
      ensures decision.Sent? ==>
        cached == old(cached) + [decision.note] && sent == old(sent) + [("note", decision.note)]
      ensures !decision.Sent? ==> cached == old(cached) && sent == old(sent)
    {
      decision := Screen(note);
      if decision.Sent? {
        cached := cached + [decision.note];
        sent := sent + [("note", decision.note)];
      }
    }
  }
}
