/**
 * What the home, local and hybrid timeline channels share: the streamed note,
 * the viewer's snapshot sets, the collaborators the channels call, the
 * re-packing of a note for the viewer and the word-mute stage (`checkWordMutes`).
 */
module Timeline {
  import opened Wrappers
  import WordMute

  type Id = string

  datatype Visibility = Public | Home | Followers | Specified

  /** A packed note as it travels on `notesStream`. */
  datatype Note = Note(
    id: Id,
    userId: Id,
    userHost: Option<string>,   // `note.user.host`; None for a local author
    visibility: Visibility,
    channelId: Option<Id>,
    replyId: Option<Id>,
    renoteId: Option<Id>,
    text: Option<string>,
    cw: Option<string>,
    reply: Option<Note>,
    renote: Option<Note>,
    isHidden: bool)

  /** The connected user, when there is one. */
  datatype User = User(id: Id, showTimelineReplies: bool)

  /** The parts of the viewer's profile the channels read. */
  datatype Profile = Profile(mutedInstances: seq<string>, mutedWords: seq<WordMute.Filter>)

  /** The snapshot sets a channel instance holds for its viewer. */
  datatype Viewer = Viewer(
    user: Option<User>,
    following: set<Id>,
    followingChannels: set<Id>,
    muting: set<Id>,
    blocking: set<Id>,
    profile: Option<Profile>)

  /**
   * Collaborators whose code is not part of this model:
   * `noteEntityService.pack(id, me, { detail: true })`,
   * `noteEntityService.isManualMutedNote(noteId, userId)`, `isUserRelated`,
   * `isInstanceMuted`, the RE2 engine and the `ltlAvailable` role policy.
   */
  datatype Services = Services(
    pack: (Id, Option<Id>) -> Note,
    isManualMutedNote: (Id, Id) -> bool,
    isUserRelated: (Note, set<Id>) -> bool,
    isInstanceMuted: (Note, set<string>) -> bool,
    re2: WordMute.Re2,
    ltlAvailable: Option<Id> -> bool)

  /**
   * What `onNote` does with one note: drops it, sends it as `'note'`, or fails
   * (the handler's promise rejects and nothing is sent).
   */
  datatype Decision = Dropped | Sent(note: Note) | Failed

  function ViewerId(viewer: Viewer): Option<Id> {
    match viewer.user
    case Some(u) => Some(u.id)
    case None => None
  }

  /** `new Set(this.userProfile?.mutedInstances ?? [])`. */
  function MutedInstances(viewer: Viewer): set<string> {
    match viewer.profile
    case Some(p) => set h | h in p.mutedInstances
    case None => {}
  }

  predicate IsRestricted(visibility: Visibility) {
    visibility == Followers || visibility == Specified
  }

  /**
   * Packs the reply and the renote for the viewer, when the note has them:
   * `reply` and `renote` become the viewer's packed copies of `replyId` and
   * `renoteId`, and every other field stays.
   */
  function PackReferences(svc: Services, viewer: Viewer, note: Note): (r: Note)
    ensures r.reply == if note.replyId.Some? then Some(svc.pack(note.replyId.value, ViewerId(viewer))) else note.reply
    ensures r.renote == if note.renoteId.Some? then Some(svc.pack(note.renoteId.value, ViewerId(viewer))) else note.renote
    ensures r.(reply := note.reply, renote := note.renote) == note
  {
    var withReply :=
      if note.replyId.Some? then note.(reply := Some(svc.pack(note.replyId.value, ViewerId(viewer))))
      else note;
    if note.renoteId.Some? then withReply.(renote := Some(svc.pack(note.renoteId.value, ViewerId(viewer))))
    else withReply
  }

  /**
   * A `followers` or `specified` note is replaced by its copy packed for the
   * viewer; any other note keeps its body and has its references packed.
   */
  function Repack(svc: Services, viewer: Viewer, note: Note): (r: Note)
    ensures IsRestricted(note.visibility) ==> r == svc.pack(note.id, ViewerId(viewer))
    ensures !IsRestricted(note.visibility) ==>
      && r.reply == (if note.replyId.Some? then Some(svc.pack(note.replyId.value, ViewerId(viewer))) else note.reply)
      && r.renote == (if note.renoteId.Some? then Some(svc.pack(note.renoteId.value, ViewerId(viewer))) else note.renote)
      && r.(reply := note.reply, renote := note.renote) == note
  {
    if IsRestricted(note.visibility) then svc.pack(note.id, ViewerId(viewer))
    else PackReferences(svc, viewer, note)
  }

  /**
   * The re-packing stage of the home and hybrid channels: a restricted note is
   * fetched again as the viewer sees it, any other has its reply and renote
   * packed for the viewer.
   */
  method RepackFor(svc: Services, viewer: Viewer, note: Note) returns (n: Note)
    requires viewer.user.Some?
    ensures n == Repack(svc, viewer, note)
  {
    var me := viewer.user.value;
    n := note;
    if IsRestricted(n.visibility) {
      n := svc.pack(n.id, Some(me.id));
    } else {
      if n.replyId.Some? {
        n := n.(reply := Some(svc.pack(n.replyId.value, Some(me.id))));
      }
      if n.renoteId.Some? {
        n := n.(renote := Some(svc.pack(n.renoteId.value, Some(me.id))));
      }
    }
  }

  /**
   * The reply-relevance rule: with `showTimelineReplies` off, a reply is
   * irrelevant unless it answers the viewer, is by the viewer, or answers its
   * own author.
   */
  predicate IrrelevantReply(note: Note, user: User) {
    && note.reply.Some?
    && !user.showTimelineReplies
    && note.reply.value.userId != user.id
    && note.userId != user.id
    && note.reply.value.userId != note.userId
  }

  predicate RelatedToMutedOrBlocked(svc: Services, viewer: Viewer, note: Note) {
    svc.isUserRelated(note, viewer.muting) || svc.isUserRelated(note, viewer.blocking)
  }

  function AsNoteLike(note: Note): WordMute.NoteLike {
    WordMute.NoteLike(note.userId, note.text, note.cw)
  }

  /** The viewer's word filters match this note (never when there is no profile). */
  predicate NoteWordMuted(svc: Services, viewer: Viewer, note: Note) {
    viewer.profile.Some?
    && WordMute.CheckWordMute(AsNoteLike(note), ViewerId(viewer), viewer.profile.value.mutedWords, svc.re2)
  }

  /**
   * A referenced note (reply or renote) mutes the note: it is manually muted
   * (home timeline only) or its packed copy is word-muted.
   */
  predicate ReferenceMuted(svc: Services, viewer: Viewer, id: Id, checkManualMutes: bool) {
    || (checkManualMutes && svc.isManualMutedNote(id, ViewerId(viewer).GetOr("")))
    || NoteWordMuted(svc, viewer, svc.pack(id, ViewerId(viewer)))
  }

  /** What `checkWordMutes` answers. */
  predicate WordMuted(svc: Services, viewer: Viewer, note: Note, checkManualMutes: bool) {
    || (note.replyId.Some? && ReferenceMuted(svc, viewer, note.replyId.value, checkManualMutes))
    || (note.renoteId.Some? && ReferenceMuted(svc, viewer, note.renoteId.value, checkManualMutes))
    || NoteWordMuted(svc, viewer, note)
  }

  /**
   * `checkWordMutes(note)`: the reply, then the renote, then the note itself;
   * the first hit answers true. On the way the note's reply and renote are
   * overwritten with copies packed for the viewer, so a note that is not muted
   * comes back with both references packed.
   */
  method CheckWordMutes(svc: Services, viewer: Viewer, note: Note, checkManualMutes: bool)
    returns (muted: bool, packed: Note)
    ensures muted == WordMuted(svc, viewer, note, checkManualMutes)
    ensures !muted ==> packed == PackReferences(svc, viewer, note)
  {
    var me := ViewerId(viewer);
    packed := note;
    if packed.replyId.Some? {
      if checkManualMutes && svc.isManualMutedNote(packed.replyId.value, me.GetOr("")) {
        return true, packed;
      }
      packed := packed.(reply := Some(svc.pack(packed.replyId.value, me)));
      if viewer.profile.Some? {
        if WordMute.CheckWordMute(AsNoteLike(packed.reply.value), me, viewer.profile.value.mutedWords, svc.re2) {
          return true, packed;
        }
      }
    }
    if packed.renoteId.Some? {
      if checkManualMutes && svc.isManualMutedNote(packed.renoteId.value, me.GetOr("")) {
        return true, packed;
      }
      packed := packed.(renote := Some(svc.pack(packed.renoteId.value, me)));
      if viewer.profile.Some? {
        if WordMute.CheckWordMute(AsNoteLike(packed.renote.value), me, viewer.profile.value.mutedWords, svc.re2) {
          return true, packed;
        }
      }
    }
    if viewer.profile.Some? && WordMute.CheckWordMute(AsNoteLike(packed), me, viewer.profile.value.mutedWords, svc.re2) {
      return true, packed;
    }
    return false, packed;
  }

  /**
   * The viewer's own note, whose reply and renote (when present) are the
   * viewer's own too, is never word-muted; only a manual note mute can stop it.
   */
  lemma OwnNoteNotWordMuted(svc: Services, viewer: Viewer, note: Note)
    requires viewer.user.Some? && note.userId == viewer.user.value.id
    requires note.replyId.Some? ==> svc.pack(note.replyId.value, ViewerId(viewer)).userId == note.userId
    requires note.renoteId.Some? ==> svc.pack(note.renoteId.value, ViewerId(viewer)).userId == note.userId
    ensures !WordMuted(svc, viewer, note, false)
  {
  }

  /** Without a profile, only a manual note mute can stop a note. */
  lemma NoProfileOnlyManualMutes(svc: Services, viewer: Viewer, note: Note, checkManualMutes: bool)
    requires viewer.profile.None?
    ensures WordMuted(svc, viewer, note, checkManualMutes) <==>
      checkManualMutes && (
        || (note.replyId.Some? && svc.isManualMutedNote(note.replyId.value, ViewerId(viewer).GetOr("")))
        || (note.renoteId.Some? && svc.isManualMutedNote(note.renoteId.value, ViewerId(viewer).GetOr(""))))
  {
  }
}
