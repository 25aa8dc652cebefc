/**
 * The hybrid timeline channel (`hybridTimeline`): the home timeline together
 * with the local public notes.
 */
module HybridTimeline {
  import opened Wrappers
  import opened Timeline

  /** The channel requires a signed-in viewer (`requireCredential = true`). */
  predicate HasViewer(viewer: Viewer) {
    viewer.user.Some?
  }

  /** The four-way scope rule. */
  predicate InScope(viewer: Viewer, note: Note)
    requires HasViewer(viewer)
  {
    || (note.channelId.None? && viewer.user.value.id == note.userId)
    || (note.channelId.None? && note.userId in viewer.following)
    || (note.channelId.None? && note.userHost.None? && note.visibility == Public)
    || (note.channelId.Some? && note.channelId.value in viewer.followingChannels)
  }

  /** What `onNote` does with a note on `notesStream`. */
  function Decide(svc: Services, viewer: Viewer, note: Note): Decision
    requires HasViewer(viewer)
  {
    if !InScope(viewer, note) then Dropped
    else
      var n := Repack(svc, viewer, note);
      if IsRestricted(note.visibility) && n.isHidden then Dropped
      else if svc.isInstanceMuted(n, MutedInstances(viewer)) then Dropped
      else if IrrelevantReply(n, viewer.user.value) then Dropped
      else if RelatedToMutedOrBlocked(svc, viewer, n) then Dropped
      else if WordMuted(svc, viewer, n, false) then Dropped
      else Sent(PackReferences(svc, viewer, n))
  }

  /**
   * A note passes the scope stage iff it is, outside channels, the viewer's own,
   * by a followed user, or local and public; or it is in a followed channel.
   */
  lemma ScopeOfDelivered(svc: Services, viewer: Viewer, note: Note)
    requires HasViewer(viewer)
    requires Decide(svc, viewer, note).Sent?
    ensures note.channelId.None? ==>
      || note.userId == viewer.user.value.id
      || note.userId in viewer.following
      || (note.userHost.None? && note.visibility == Public)
    ensures note.channelId.Some? ==> note.channelId.value in viewer.followingChannels
  {
  }

  /**
   * A note is sent exactly when every stage lets it through, and what is sent
   * is the copy re-packed for the viewer with its reply and renote packed.
   * A summary of the stages in one place; the other lemmas state what each
   * stage guarantees on its own.
   */
  lemma DeliveredIff(svc: Services, viewer: Viewer, note: Note)
    requires HasViewer(viewer)
    ensures Decide(svc, viewer, note) != Failed
    ensures Decide(svc, viewer, note).Sent? <==> (
      var n := Repack(svc, viewer, note);
      && InScope(viewer, note)
      && !(IsRestricted(note.visibility) && n.isHidden)
      && !svc.isInstanceMuted(n, MutedInstances(viewer))
      && !IrrelevantReply(n, viewer.user.value)
      && !svc.isUserRelated(n, viewer.muting)
      && !svc.isUserRelated(n, viewer.blocking)
      && !WordMuted(svc, viewer, n, false))
    ensures Decide(svc, viewer, note).Sent? ==>
      Decide(svc, viewer, note).note == PackReferences(svc, viewer, Repack(svc, viewer, note))
  {
  }

  /**
   * Unlike the home timeline, the muted-instance check looks at the re-packed
   * note: a restricted note whose viewer copy comes from a muted instance is
   * dropped even when the streamed note does not look muted.
   */
  lemma MutedInstanceCheckedAfterRepack(svc: Services, viewer: Viewer, note: Note)
    requires HasViewer(viewer) && IsRestricted(note.visibility)
    requires svc.isInstanceMuted(svc.pack(note.id, ViewerId(viewer)), MutedInstances(viewer))
    ensures Decide(svc, viewer, note) == Dropped
  {
  }

  /**
   * A `followers` or `specified` note is never sent as streamed: it is dropped
   * when the viewer's copy is hidden, and otherwise the viewer's copy is sent.
   */
  lemma RestrictedNoteIsRepacked(svc: Services, viewer: Viewer, note: Note)
    requires HasViewer(viewer) && IsRestricted(note.visibility)
    ensures svc.pack(note.id, ViewerId(viewer)).isHidden ==> Decide(svc, viewer, note) == Dropped
    ensures Decide(svc, viewer, note).Sent? ==>
      Decide(svc, viewer, note).note == PackReferences(svc, viewer, svc.pack(note.id, ViewerId(viewer)))
  {
  }

  /**
   * One channel instance. `listeners` counts the registrations of this
   * instance's `onNote` on `notesStream`; `cached` and `sent` record what the
   * instance handed to its connection.
   */
  class HybridTimelineChannel {
    const svc: Services
    const viewer: Viewer
    var listeners: nat
    var cached: seq<Note>
    var sent: seq<(string, Note)>

    constructor (svc: Services, viewer: Viewer)
      requires HasViewer(viewer)
      ensures this.svc == svc && this.viewer == viewer
      ensures listeners == 0 && cached == [] && sent == []
    {
      this.svc := svc;
      this.viewer := viewer;
      listeners := 0;
      cached := [];
      sent := [];
    }

    predicate Subscribed()
      reads this
    {
      listeners > 0
    }

    /** `init`: subscribes only when the viewer's role policy has `ltlAvailable`. */
    method Init()
      modifies this`listeners
      ensures listeners == if svc.ltlAvailable(ViewerId(viewer)) then old(listeners) + 1 else old(listeners)
    {
      if !svc.ltlAvailable(ViewerId(viewer)) {
        return;
      }
      listeners := listeners + 1;
    }

    /** `dispose`: unregisters the handler `init` registered; a second call changes nothing. */
    method Dispose()
      modifies this`listeners
      ensures listeners == if old(listeners) > 0 then old(listeners) - 1 else 0
    {
      if listeners > 0 {
        listeners := listeners - 1;
      }
    }

    /** The stages of `onNote` before anything is sent: its verdict on the note. */
    method Screen(note: Note) returns (decision: Decision)
      requires HasViewer(viewer)
      ensures decision == Decide(svc, viewer, note)
    {
      var me := viewer.user.value;
      if !(
        || (note.channelId.None? && me.id == note.userId)
        || (note.channelId.None? && note.userId in viewer.following)
        || (note.channelId.None? && note.userHost.None? && note.visibility == Public)
        || (note.channelId.Some? && note.channelId.value in viewer.followingChannels))
      {
        return Dropped;
      }
      var n := RepackFor(svc, viewer, note);
      if IsRestricted(note.visibility) && n.isHidden { return Dropped; }
      if svc.isInstanceMuted(n, MutedInstances(viewer)) { return Dropped; }
      if n.reply.Some? && !me.showTimelineReplies {
        var reply := n.reply.value;
        if reply.userId != me.id && n.userId != me.id && reply.userId != n.userId { return Dropped; }
      }
      if svc.isUserRelated(n, viewer.muting) { return Dropped; }
      if svc.isUserRelated(n, viewer.blocking) { return Dropped; }
      var muted, packed := CheckWordMutes(svc, viewer, n, false);
      if muted { return Dropped; }
      return Sent(packed);
    }

    /**
     * `onNote`, which runs only while the handler is registered: a note that
     * passes every stage is cached and sent once as `'note'`; a dropped note
     * leaves both logs as they were.
     */
    method OnNote(note: Note) returns (decision: Decision)
      requires HasViewer(viewer) && Subscribed()
      modifies this`cached, this`sent
      ensures decision == Decide(svc, viewer, note)
      ensures decision.Sent? ==>
        cached == old(cached) + [decision.note] && sent == old(sent) + [("note", decision.note)]
      ensures !decision.Sent? ==> cached == old(cached) && sent == old(sent)
    {
      decision := Screen(note);
      if decision.Sent? {
        cached := cached + [decision.note];
        sent := sent + [("note", decision.note)];
      }
    }
  }
}
