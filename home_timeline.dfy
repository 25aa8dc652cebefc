/** The home timeline channel (`homeTimeline`): notes of followed users and followed channels. */
module HomeTimeline {
  import opened Wrappers
  import opened Timeline
  import JsString

  /** The channel requires a signed-in viewer (`requireCredential = true`). */
  predicate HasViewer(viewer: Viewer) {
    viewer.user.Some?
  }

  /**
   * A note with a truthy `channelId` needs a followed channel; any other note
   * (no channel, or an empty one) a followed author or the viewer.
   */
  predicate InScope(viewer: Viewer, note: Note)
    requires HasViewer(viewer)
  {
    if JsString.IsTruthy(note.channelId) then note.channelId.value in viewer.followingChannels
    else note.userId == viewer.user.value.id || note.userId in viewer.following
  }

  /** What `onNote` does with a note on `notesStream`. */
  function Decide(svc: Services, viewer: Viewer, note: Note): Decision
    requires HasViewer(viewer)
  {
    if !InScope(viewer, note) then Dropped
    else if svc.isInstanceMuted(note, MutedInstances(viewer)) then Dropped
    else
      var n := Repack(svc, viewer, note);
      if IsRestricted(note.visibility) && n.isHidden then Dropped
      else if IrrelevantReply(n, viewer.user.value) then Dropped
      else if RelatedToMutedOrBlocked(svc, viewer, n) then Dropped
      else if WordMuted(svc, viewer, n, true) then Dropped
      else Sent(PackReferences(svc, viewer, n))
  }

  /**
   * A note is sent exactly when every stage lets it through, and what is sent
   * is the copy re-packed for the viewer with its reply and renote packed.
   * A summary of the stages in one place; the lemmas below state what each
   * stage guarantees on its own.
   */
  lemma DeliveredIff(svc: Services, viewer: Viewer, note: Note)
    requires HasViewer(viewer)
    ensures Decide(svc, viewer, note) != Failed
    ensures Decide(svc, viewer, note).Sent? <==> (
      var n := Repack(svc, viewer, note);
      && InScope(viewer, note)
      && !svc.isInstanceMuted(note, MutedInstances(viewer))
      && !(IsRestricted(note.visibility) && n.isHidden)
      && !IrrelevantReply(n, viewer.user.value)
      && !svc.isUserRelated(n, viewer.muting)
      && !svc.isUserRelated(n, viewer.blocking)
      && !WordMuted(svc, viewer, n, true))
    ensures Decide(svc, viewer, note).Sent? ==>
      Decide(svc, viewer, note).note == PackReferences(svc, viewer, Repack(svc, viewer, note))
  {
  }

  /** A delivered channel note belongs to a channel the viewer follows. */
  lemma ChannelNoteNeedsFollowedChannel(svc: Services, viewer: Viewer, note: Note)
    requires HasViewer(viewer) && JsString.IsTruthy(note.channelId)
    requires Decide(svc, viewer, note).Sent?
    ensures note.channelId.value in viewer.followingChannels
  {
  }

  /**
   * A delivered note outside channels, or with an empty `channelId`, is the
   * viewer's own or by someone the viewer follows.
   */
  lemma PlainNoteNeedsFollowedAuthor(svc: Services, viewer: Viewer, note: Note)
    requires HasViewer(viewer) && !JsString.IsTruthy(note.channelId)
    requires Decide(svc, viewer, note).Sent?
    ensures note.userId == viewer.user.value.id || note.userId in viewer.following
  {
  }

  /**
   * The muted-instance check looks at the note as streamed, before any
   * re-packing: whatever the packed copy would say, a note from a muted
   * instance is dropped.
   */
  lemma MutedInstanceDroppedBeforeRepack(svc: Services, viewer: Viewer, note: Note)
    requires HasViewer(viewer)
    requires svc.isInstanceMuted(note, MutedInstances(viewer))
    ensures Decide(svc, viewer, note) == Dropped
  {
  }

  /**
   * A `followers` or `specified` note is never sent as streamed: it is dropped
   * when the viewer's copy is hidden, and otherwise the viewer's copy is sent.
   */
  lemma RestrictedNoteIsRepacked(svc: Services, viewer: Viewer, note: Note)
    requires HasViewer(viewer) && IsRestricted(note.visibility)
    ensures svc.pack(note.id, ViewerId(viewer)).isHidden ==> Decide(svc, viewer, note) == Dropped
    ensures Decide(svc, viewer, note).Sent? ==>
      Decide(svc, viewer, note).note == PackReferences(svc, viewer, svc.pack(note.id, ViewerId(viewer)))
  {
  }

  /**
   * With `showTimelineReplies` off, a delivered reply answers the viewer, is
   * by the viewer, or answers its own author.
   */
  lemma DeliveredReplyIsRelevant(svc: Services, viewer: Viewer, note: Note)
    requires HasViewer(viewer) && !viewer.user.value.showTimelineReplies
    requires Decide(svc, viewer, note).Sent?
    ensures var n := Repack(svc, viewer, note);
      n.reply.Some? ==>
        || n.reply.value.userId == viewer.user.value.id
        || n.userId == viewer.user.value.id
        || n.reply.value.userId == n.userId
  {
  }

  /**
   * A reply or renote the viewer muted by hand stops the note, whatever the
   * word filters say.
   */
  lemma ManuallyMutedReferenceDropped(svc: Services, viewer: Viewer, note: Note)
    requires HasViewer(viewer)
    requires var n := Repack(svc, viewer, note);
      || (n.replyId.Some? && svc.isManualMutedNote(n.replyId.value, viewer.user.value.id))
      || (n.renoteId.Some? && svc.isManualMutedNote(n.renoteId.value, viewer.user.value.id))
    ensures Decide(svc, viewer, note) == Dropped
  {
  }

  /**
   * One channel instance. `listeners` counts the registrations of this
   * instance's `onNote` on `notesStream`; `cached` and `sent` record what the
   * instance handed to its connection.
   */
  class HomeTimelineChannel {
    const svc: Services
    const viewer: Viewer
    var listeners: nat
    var cached: seq<Note>
    var sent: seq<(string, Note)>

    constructor (svc: Services, viewer: Viewer)
      requires HasViewer(viewer)
      ensures this.svc == svc && this.viewer == viewer
      ensures listeners == 0 && cached == [] && sent == []
    {
      this.svc := svc;
      this.viewer := viewer;
      listeners := 0;
      cached := [];
      sent := [];
    }

    predicate Subscribed()
      reads this
    {
      listeners > 0
    }

    /** `init`: registers `onNote` on `notesStream`, with no policy gate. */
    method Init()
      modifies this`listeners
      ensures listeners == old(listeners) + 1 && Subscribed()
    {
      listeners := listeners + 1;
    }

    /** `dispose`: unregisters the handler `init` registered; a second call changes nothing. */
    method Dispose()
      modifies this`listeners
      ensures listeners == if old(listeners) > 0 then old(listeners) - 1 else 0
    {
      if listeners > 0 {
        listeners := listeners - 1;
      }
    }

    /** The stages of `onNote` before anything is sent: its verdict on the note. */
    method Screen(note: Note) returns (decision: Decision)
      requires HasViewer(viewer)
      ensures decision == Decide(svc, viewer, note)
    {
      var me := viewer.user.value;
      if JsString.IsTruthy(note.channelId) {
        if note.channelId.value !in viewer.followingChannels { return Dropped; }
      } else {
        if me.id != note.userId && note.userId !in viewer.following { return Dropped; }
      }
      if svc.isInstanceMuted(note, MutedInstances(viewer)) { return Dropped; }
      var n := RepackFor(svc, viewer, note);
      if IsRestricted(note.visibility) && n.isHidden { return Dropped; }
      if n.reply.Some? && !me.showTimelineReplies {
        var reply := n.reply.value;
        if reply.userId != me.id && n.userId != me.id && reply.userId != n.userId { return Dropped; }
      }
      if svc.isUserRelated(n, viewer.muting) { return Dropped; }
      if svc.isUserRelated(n, viewer.blocking) { return Dropped; }
      var muted, packed := CheckWordMutes(svc, viewer, n, true);
      if muted { return Dropped; }
      return Sent(packed);
    }

    /**
     * `onNote`, which runs only while the handler is registered: a note that
     * passes every stage is cached and sent once as `'note'`; a dropped note
     * leaves both logs as they were.
     */
    method OnNote(note: Note) returns (decision: Decision)
      requires HasViewer(viewer) && Subscribed()
      modifies this`cached, this`sent
      ensures decision == Decide(svc, viewer, note)
      ensures decision.Sent? ==>
        cached == old(cached) + [decision.note] && sent == old(sent) + [("note", decision.note)]
      ensures !decision.Sent? ==> cached == old(cached) && sent == old(sent)
    {
      decision := Screen(note);
      if decision.Sent? {
        cached := cached + [decision.note];
        sent := sent + [("note", decision.note)];
      }
    }
  }
}
