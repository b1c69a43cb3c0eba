/** What every answer to an upload means: in the fields of the request and of the tables before and after,
    whatever internal/api/subtitles.go does to get there.
 */
module UploadReplies {
  import opened Wrappers
  import opened Catalogue
  import opened Uploads

  // -- The text --------------------------------------------------------------------

  predicate Said(db: Db, r: int, req: Request, t: int) {
    && t in db.tracks && db.tracks[t].releaseId == r
    && db.tracks[t].lang == req.lang && db.tracks[t].body == req.body
  }

  ghost predicate NobodySaid(db: Db, r: int, req: Request) {
    forall t :: t in db.tracks ==> !Said(db, r, req, t)
  }

  /** The first of the rows that say it. */
  ghost predicate FirstSaid(db: Db, r: int, req: Request, t: int) {
    Said(db, r, req, t) && forall u :: u in db.tracks && Said(db, r, req, u) ==> t <= u
  }

  lemma FoundIsFirstSaid(db: Db, r: int, req: Request)
    requires WellKept(db)
    ensures var t := FindIdenticalTrack(db, r, req.lang, req.body);
            if t == 0 then NobodySaid(db, r, req) else FirstSaid(db, r, req, t)
  {
  }

  // -- The row ---------------------------------------------------------------------

  /** The row holds what was sent, and the usual where nothing was. */
  predicate Holds(t: TrackRow, r: int, req: Request) {
    && t.releaseId == r && t.lang == req.lang && t.body == req.body
    && t.generated == req.generated && t.declared == req.declared && t.uploader == Some(req.account)
    && t.kind == (if req.kind.Some? then req.kind.value else "default") && t.kindLabel == req.kindLabel
    && t.authorship == (if req.authorship.Some? then req.authorship.value else "shared")
    && t.withdrawn.None? && !t.locked
  }

  predicate OwnChain(t: TrackRow, id: int) {
    t.root == id && t.revision == 1 && t.supersedes.None?
  }

  /** It follows `target`, above everything in the chain. */
  ghost predicate Revises(db: Db, t: TrackRow, target: int)
    requires target in db.tracks
  {
    && t.supersedes == Some(target) && t.root == db.tracks[target].root
    && (forall u :: u in db.tracks && db.tracks[u].root == t.root ==> db.tracks[u].revision < t.revision)
    && HasRevision(db, t.root, t.revision - 1)
  }

  ghost predicate HasRevision(db: Db, root: int, n: int) {
    exists u :: u in db.tracks && db.tracks[u].root == root && db.tracks[u].revision == n
  }

  /** There is one row more and no other change. */
  ghost predicate OneRowMore(before: map<int, TrackRow>, after: map<int, TrackRow>, id: int) {
    && id !in before && after.Keys == before.Keys + {id}
    && forall t :: t in before ==> after[t] == before[t]
  }

  /** What its own uploader stated replaces what was stored; a declaration is only added. */
  predicate Corrects(t: TrackRow, u: TrackRow, req: Request) {
    && u == t.(kind := u.kind, kindLabel := u.kindLabel, authorship := u.authorship, declared := u.declared)
    && u.kind == (if req.kind.Some? then req.kind.value else t.kind)
    && u.kindLabel == (if req.kind.Some? then req.kindLabel else t.kindLabel)
    && u.authorship == (if req.authorship.Some? then req.authorship.value else t.authorship)
    && (u.declared <==> t.declared || req.declared)
  }

  // -- The track to revise ------------------------------------------------------------

  predicate SameReleaseAndLanguage(db: Db, r: int, req: Request) {
    && req.supersedes in db.tracks && db.tracks[req.supersedes].releaseId == r
    && db.tracks[req.supersedes].lang == req.lang
  }

  predicate Open(db: Db, r: int, req: Request) {
    SameReleaseAndLanguage(db, r, req) && db.tracks[req.supersedes].withdrawn.None? && !db.tracks[req.supersedes].locked
  }

  /** Everything but the texts speaks for a revision. */
  ghost predicate Acceptable(db: Db, r: int, req: Request) {
    && Open(db, r, req) && IsHead(db, db.tracks[req.supersedes].root, req.supersedes)
    && (req.generated ==> db.tracks[req.supersedes].generated)
  }

  // -- The answers -----------------------------------------------------------------------

  /** Why the request got this answer, and what it did to the tracks. No two answers fit. */
  ghost predicate Due(db: Db, r: int, req: Request, diverge: Divergence, after: map<int, TrackRow>, reply: Reply)
    requires r in db.releases
  {
    var before := db.tracks;
    var isNew := db.releases[r].withdrawn.None? && NobodySaid(db, r, req);
    match reply
    case ReleaseGone => db.releases[r].withdrawn.Some? && after == before
    case TrackGone =>
      && db.releases[r].withdrawn.None? && after == before
      && exists t :: FirstSaid(db, r, req, t) && t in before && before[t].withdrawn.Some?
    case Duplicate(id) =>
      && db.releases[r].withdrawn.None? && FirstSaid(db, r, req, id) && before[id].withdrawn.None?
      && (if before[id].uploader == Some(req.account)
          then id in after && after == before[id := after[id]] && Corrects(before[id], after[id], req)
          else after == before)
    case Created(id) =>
      && isNew && req.supersedes == 0
      && OneRowMore(before, after, id) && Holds(after[id], r, req) && OwnChain(after[id], id)
    case Revised(id, target) =>
      && isNew && req.supersedes == target != 0 && Acceptable(db, r, req)
      && diverge(before[target].body, req.body).Close?
      && OneRowMore(before, after, id) && Holds(after[id], r, req) && Revises(db, after[id], target)
    case Declined(id, reason) =>
      && isNew && req.supersedes != 0 && Acceptable(db, r, req)
      && OneRowMore(before, after, id) && Holds(after[id], r, req) && OwnChain(after[id], id)
      && (match diverge(before[req.supersedes].body, req.body)
          case PureRetime => reason == "retime"
          case TooDifferent => reason == "too_different"
          case _ => false)
    case InternalError =>
      && isNew && req.supersedes != 0 && Acceptable(db, r, req)
      && diverge(before[req.supersedes].body, req.body).Unreadable? && after == before
    case MachineOverHuman =>
      && isNew && req.supersedes != 0 && after == before
      && Open(db, r, req) && IsHead(db, before[req.supersedes].root, req.supersedes)
      && req.generated && !before[req.supersedes].generated
    case Refused(why, head) =>
      && isNew && req.supersedes != 0 && after == before && (!why.NotHead? ==> head == 0)
      && (match why
          case NotFound => req.supersedes !in before
          case Mismatch => req.supersedes in before && !SameReleaseAndLanguage(db, r, req)
          case IsWithdrawn => SameReleaseAndLanguage(db, r, req) && before[req.supersedes].withdrawn.Some?
          case IsLocked =>
            && SameReleaseAndLanguage(db, r, req) && before[req.supersedes].withdrawn.None?
            && before[req.supersedes].locked
          case NotHead =>
            Open(db, r, req) && IsHead(db, before[req.supersedes].root, head) && head != req.supersedes
          case Conflict => false)
  }

  /** The file's release: there already, or filed now with what was sent about it. */
  ghost predicate Filed(before: map<int, ReleaseRow>, after: map<int, ReleaseRow>, req: Request, r: int) {
    && r in after && after[r].oshash == req.oshash
    && if r in before then after == before
       else
         && (forall q :: q in before ==> before[q].oshash != req.oshash)
         && after == before[r := after[r]]
         && after[r].phash == req.phash && after[r].durationMs == req.durationMs && after[r].withdrawn.None?
  }

  ghost predicate Answered(before: Db, req: Request, diverge: Divergence, after: Db, reply: Reply) {
    exists r, found :: FoundRelease(before, found, req, r) && after.releases == found.releases
                       && Due(found, r, req, diverge, after.tracks, reply)
  }

  ghost predicate FoundRelease(before: Db, found: Db, req: Request, r: int) {
    found.tracks == before.tracks && Filed(before.releases, found.releases, req, r) && r in found.releases
  }

  lemma SaidOrNot(db: Db, r: int, req: Request)
    ensures forall t :: FirstSaid(db, r, req, t) ==> !NobodySaid(db, r, req) && t in db.tracks
    ensures forall t, u :: FirstSaid(db, r, req, t) && FirstSaid(db, r, req, u) ==> t == u
  {
  }

  lemma OneKeyMore(before: map<int, TrackRow>, after: map<int, TrackRow>)
    ensures forall i, j :: OneRowMore(before, after, i) && OneRowMore(before, after, j) ==> i == j
  {
    forall i, j | OneRowMore(before, after, i) && OneRowMore(before, after, j) ensures i == j {
      assert i in after.Keys && j in after.Keys;
    }
  }

  /** The tables before and after leave no choice of answer. */
  lemma OneAnswerIsDue(db: Db, r: int, req: Request, diverge: Divergence, after: map<int, TrackRow>, a: Reply,
                       b: Reply)
    requires WellKept(db) && r in db.releases
    requires Due(db, r, req, diverge, after, a) && Due(db, r, req, diverge, after, b)
    ensures a == b
  {
    if req.supersedes in db.tracks {
      HeadIsHead(db, db.tracks[req.supersedes].root);
    }
    SaidOrNot(db, r, req);
    OneKeyMore(db.tracks, after);
    hide IsHead, Head, Holds, OwnChain, Revises, Corrects, WellKept, NobodySaid, FirstSaid, OneRowMore;
  }

  // -- Why the answers are due ------------------------------------------------------------

  lemma CreationIsDue(db: Db, r: int, req: Request, declined: string)
    requires Sound(db) && r in db.releases
    ensures var (after, reply) := Commit(db, Create(NewTrack(req, r), declined));
            && after.releases == db.releases
            && reply == (if declined == "" then Created(db.nextTrack) else Declined(db.nextTrack, declined))
            && OneRowMore(db.tracks, after.tracks, db.nextTrack)
            && Holds(after.tracks[db.nextTrack], r, req) && OwnChain(after.tracks[db.nextTrack], db.nextTrack)
  {
    CreateKeepsSound(db, NewTrack(req, r));
    hide Sound, MayInsert;
  }

  lemma AddedRow(db: Db, row: TrackRow)
    requires WellKept(db)
    ensures OneRowMore(db.tracks, AddRow(db, row).tracks, db.nextTrack)
    ensures AddRow(db, row).tracks[db.nextTrack] == row && AddRow(db, row).releases == db.releases
  {
  }

  lemma NextRevisionHolds(db: Db, target: int, r: int, req: Request)
    requires target in db.tracks && db.nextTrack >= 0
    ensures var row := NextRevision(db, target, NewTrack(req, r));
            Holds(row, r, req) && row.supersedes == Some(target) && row.root == db.tracks[target].root
  {
    hide MaxRevision;
  }

  lemma NextRevisionRevises(db: Db, r: int, req: Request)
    requires Sound(db) && req.supersedes in db.tracks
    ensures var row := NextRevision(db, req.supersedes, NewTrack(req, r));
            Holds(row, r, req) && Revises(db, row, req.supersedes)
  {
    var target, track := req.supersedes, NewTrack(req, r);
    assert db.nextTrack >= 0;
    hide AllSound, DistinctRevisions, IndexHolds, NextRevision, HasRevision, Holds;
    RevisionsBelowNext(db, target, track);
    SomeRevisionJustBelow(db, target, track);
    NextRevisionHolds(db, target, r, req);
    hide WellKept;
  }

  lemma RevisionIsDue(db: Db, r: int, req: Request)
    requires Sound(db) && r in db.releases && Acceptable(db, r, req)
    ensures var (after, reply) := Commit(db, Supersede(req.supersedes, NewTrack(req, r)));
            && after.releases == db.releases && reply == Revised(db.nextTrack, req.supersedes)
            && OneRowMore(db.tracks, after.tracks, db.nextTrack)
            && Holds(after.tracks[db.nextTrack], r, req) && Revises(db, after.tracks[db.nextTrack], req.supersedes)
  {
    var target, track := req.supersedes, NewTrack(req, r);
    HeadIsHead(db, db.tracks[target].root);
    hide Sound, SupersedeTrack, MaxRevision, IsHead, Head, SoundTrack, NextRevision, Holds, Revises, OneRowMore, AddRow;
    HeadCanBeSuperseded(db, target, track);
    SupersedeInserts(db, target, track);
    NextRevisionRevises(db, r, req);
    AddedRow(db, NextRevision(db, target, track));
  }

  lemma SomeRevisionJustBelow(db: Db, target: int, track: TrackRow)
    requires Sound(db) && target in db.tracks
    ensures var row := NextRevision(db, target, track); HasRevision(db, row.root, row.revision - 1)
  {
    var root := db.tracks[target].root;
    var m := MaxRevision(db, root, false, db.nextTrack);
    assert InChain(db, root, false, target) && SoundTrack(db, target);
    assert m > 0;
    var u :| 0 <= u < db.nextTrack && InChain(db, root, false, u) && db.tracks[u].revision == m;
  }

  lemma DuplicateIsDue(db: Db, r: int, req: Request, id: int, diverge: Divergence)
    requires r in db.releases && db.releases[r].withdrawn.None? && FirstSaid(db, r, req, id)
    ensures var (after, reply) := DuplicateOf(db, id, req);
            after.releases == db.releases && Due(db, r, req, diverge, after.tracks, reply)
  {
    hide FirstSaid, NobodySaid;
    assert Said(db, r, req, id) by { FirstIsSaid(db, r, req, id); }
  }

  lemma FirstIsSaid(db: Db, r: int, req: Request, id: int)
    requires FirstSaid(db, r, req, id)
    ensures Said(db, r, req, id)
  {
  }

  /** Up to the texts, a proposal is refused for the first reason there is. */
  lemma RefusalIsDue(db: Db, r: int, req: Request, diverge: Divergence)
    requires WellKept(db) && r in db.releases && db.releases[r].withdrawn.None? && NobodySaid(db, r, req)
    requires req.supersedes != 0 && !Acceptable(db, r, req)
    ensures var todo := Propose(db, req, r, diverge);
            todo.Nothing? && Due(db, r, req, diverge, db.tracks, todo.reply)
  {
    if req.supersedes in db.tracks {
      HeadIsHead(db, db.tracks[req.supersedes].root);
    }
    hide Head, IsHead, NobodySaid, WellKept;
  }

  lemma AcceptableIsJudged(db: Db, r: int, req: Request, diverge: Divergence)
    requires WellKept(db) && r in db.releases && Acceptable(db, r, req)
    ensures Propose(db, req, r, diverge) ==
            match diverge(db.tracks[req.supersedes].body, req.body)
            case Unreadable => Nothing(InternalError)
            case PureRetime => Create(NewTrack(req, r), "retime")
            case TooDifferent => Create(NewTrack(req, r), "too_different")
            case Close => Supersede(req.supersedes, NewTrack(req, r))
  {
    HeadIsHead(db, db.tracks[req.supersedes].root);
    hide Head, IsHead, WellKept;
  }

  lemma JudgementIsDue(db: Db, r: int, req: Request, diverge: Divergence)
    requires Sound(db) && r in db.releases && db.releases[r].withdrawn.None? && NobodySaid(db, r, req)
    requires req.supersedes != 0 && Acceptable(db, r, req)
    ensures var (after, reply) := Commit(db, Propose(db, req, r, diverge));
            after.releases == db.releases && Due(db, r, req, diverge, after.tracks, reply)
  {
    assert req.supersedes in db.tracks;
    AcceptableIsJudged(db, r, req, diverge);
    hide Propose, Sound, Acceptable, OneRowMore, Holds, OwnChain, Revises, NobodySaid, Commit, Due;
    match diverge(db.tracks[req.supersedes].body, req.body) {
      case Unreadable =>
        NothingIsDone(db, InternalError);
        UnreadableIsDue(db, r, req, diverge);
      case PureRetime =>
        CreationIsDue(db, r, req, "retime");
        DeclineIsDue(db, r, req, diverge, "retime");
      case TooDifferent =>
        CreationIsDue(db, r, req, "too_different");
        DeclineIsDue(db, r, req, diverge, "too_different");
      case Close =>
        RevisionIsDue(db, r, req);
        AcceptanceIsDue(db, r, req, diverge);
    }
  }

  lemma NothingIsDone(db: Db, reply: Reply)
    ensures Commit(db, Nothing(reply)) == (db, reply)
  {
  }

  lemma UnreadableIsDue(db: Db, r: int, req: Request, diverge: Divergence)
    requires r in db.releases && db.releases[r].withdrawn.None? && NobodySaid(db, r, req)
    requires req.supersedes != 0 && req.supersedes in db.tracks && Acceptable(db, r, req)
    requires diverge(db.tracks[req.supersedes].body, req.body).Unreadable?
    ensures Due(db, r, req, diverge, db.tracks, InternalError)
  {
    hide NobodySaid, Acceptable;
  }

  lemma DeclineIsDue(db: Db, r: int, req: Request, diverge: Divergence, reason: string)
    requires r in db.releases && db.releases[r].withdrawn.None? && NobodySaid(db, r, req)
    requires req.supersedes != 0 && req.supersedes in db.tracks && Acceptable(db, r, req)
    requires var verdict := diverge(db.tracks[req.supersedes].body, req.body);
             (verdict.PureRetime? && reason == "retime") || (verdict.TooDifferent? && reason == "too_different")
    requires var (after, reply) := Commit(db, Create(NewTrack(req, r), reason));
             && reply == Declined(db.nextTrack, reason) && OneRowMore(db.tracks, after.tracks, db.nextTrack)
             && Holds(after.tracks[db.nextTrack], r, req) && OwnChain(after.tracks[db.nextTrack], db.nextTrack)
    ensures var (after, reply) := Commit(db, Create(NewTrack(req, r), reason));
            Due(db, r, req, diverge, after.tracks, reply)
  {
    hide NobodySaid, Acceptable, Holds, OwnChain, Commit;
  }

  lemma AcceptanceIsDue(db: Db, r: int, req: Request, diverge: Divergence)
    requires r in db.releases && db.releases[r].withdrawn.None? && NobodySaid(db, r, req)
    requires req.supersedes != 0 && req.supersedes in db.tracks && Acceptable(db, r, req)
    requires diverge(db.tracks[req.supersedes].body, req.body).Close?
    requires var (after, reply) := Commit(db, Supersede(req.supersedes, NewTrack(req, r)));
             && reply == Revised(db.nextTrack, req.supersedes) && OneRowMore(db.tracks, after.tracks, db.nextTrack)
             && Holds(after.tracks[db.nextTrack], r, req) && Revises(db, after.tracks[db.nextTrack], req.supersedes)
    ensures var (after, reply) := Commit(db, Supersede(req.supersedes, NewTrack(req, r)));
            Due(db, r, req, diverge, after.tracks, reply)
  {
    hide NobodySaid, Acceptable, Holds, Revises, Commit;
  }

  lemma ProposalIsDue(db: Db, r: int, req: Request, diverge: Divergence)
    requires Sound(db) && r in db.releases && db.releases[r].withdrawn.None? && NobodySaid(db, r, req)
    requires req.supersedes != 0
    ensures var (after, reply) := Commit(db, Propose(db, req, r, diverge));
            after.releases == db.releases && Due(db, r, req, diverge, after.tracks, reply)
  {
    if !Acceptable(db, r, req) {
      RefusalIsDue(db, r, req, diverge);
    } else {
      JudgementIsDue(db, r, req, diverge);
    }
    hide Propose, Due, Sound;
  }

  /** So is the answer of a node that is sound, to a request nothing disturbs. */
  lemma EveryAnswerIsDue(before: Db, req: Request, diverge: Divergence)
    requires Sound(before)
    ensures var (db1, todo) := Prepare(before, req, diverge);
            var (after, reply) := Commit(db1, todo);
            Answered(before, req, diverge, after, reply)
  {
    var (found, r) := GetOrCreateRelease(before, req.oshash, req.phash, req.durationMs);
    ReleaseKeepsSound(before, req.oshash, req.phash, req.durationMs);
    ReleaseIsFiled(before, req);
    FoundIsFirstSaid(found, r, req);
    hide GetOrCreateRelease;
    var existing := FindIdenticalTrack(found, r, req.lang, req.body);
    if found.releases[r].withdrawn.None? {
      if existing != 0 {
        DuplicateIsDue(found, r, req, existing, diverge);
      } else if req.supersedes != 0 {
        ProposalIsDue(found, r, req, diverge);
      } else {
        CreationIsDue(found, r, req, "");
      }
    }
    hide Sound, FindIdenticalTrack, DuplicateOf, Propose, Grows, NobodySaid, FirstSaid, FoundRelease;
    var (db1, todo) := Prepare(before, req, diverge);
    assert Due(found, r, req, diverge, Commit(db1, todo).0.tracks, Commit(db1, todo).1);
    hide Due;
  }

  lemma ReleaseIsFiled(before: Db, req: Request)
    requires WellKept(before)
    ensures var (found, r) := GetOrCreateRelease(before, req.oshash, req.phash, req.durationMs);
            FoundRelease(before, found, req, r)
  {
  }

  lemma ClosedAtCommit(db: Db, target: int, track: TrackRow)
    requires target in db.tracks && (db.tracks[target].withdrawn.Some? || db.tracks[target].locked)
    ensures SupersedeTrack(db, target, track) ==
            Failure(if db.tracks[target].withdrawn.Some? then IsWithdrawn else IsLocked)
  {
    hide MaxRevision, MayInsert;
  }

  lemma NotHeadAtCommit(db: Db, target: int, track: TrackRow)
    requires Sound(db) && target in db.tracks && db.tracks[target].Live() && !db.tracks[target].locked
    requires !IsHead(db, db.tracks[target].root, target)
    ensures SupersedeTrack(db, target, track) == Failure(NotHead)
  {
    HeadByRevision(db, target);
    hide Sound, IsHead, MaxRevision, MayInsert;
  }

  lemma HeadAtCommit(db: Db, target: int, track: TrackRow)
    requires Sound(db) && Checked(db, Supersede(target, track))
    requires db.tracks[target].Live() && !db.tracks[target].locked && IsHead(db, db.tracks[target].root, target)
    ensures SupersedeTrack(db, target, track).Success? && SupersedeTrack(db, target, track).value.1 == db.nextTrack
  {
    HeadIsHead(db, db.tracks[target].root);
    hide Sound, SupersedeTrack, IsHead, Head;
    HeadCanBeSuperseded(db, target, track);
  }

  lemma RevisionCommits(db: Db, target: int, track: TrackRow)
    requires target in db.tracks
    ensures var r := SupersedeTrack(db, target, track);
            Commit(db, Supersede(target, track)) ==
            if r.Success? then (r.value.0, Revised(r.value.1, target)) else (db, RefusedReply(db, target, r.error))
    ensures RefusedReply(db, target, IsWithdrawn) == Refused(IsWithdrawn, 0)
    ensures RefusedReply(db, target, IsLocked) == Refused(IsLocked, 0)
    ensures RefusedReply(db, target, NotHead) == Refused(NotHead, Head(db, db.tracks[target].root))
  {
    hide SupersedeTrack, CreateTrack, Head;
  }

  /** Whatever came between the checks and the commit of a revision, the answer is as things are at the
      commit: it is refused for a takedown, a lock or a newer head, which it then names, and for nothing else. */
  lemma LateAnswerIsDue(db: Db, target: int, track: TrackRow)
    requires Sound(db) && Checked(db, Supersede(target, track))
    ensures var (after, reply) := Commit(db, Supersede(target, track));
            var t := db.tracks[target];
            if t.withdrawn.None? && !t.locked && IsHead(db, t.root, target) then reply == Revised(db.nextTrack, target)
            else
              && after == db && reply.Refused?
              && (t.withdrawn.Some? ==> reply == Refused(IsWithdrawn, 0))
              && (t.withdrawn.None? && t.locked ==> reply == Refused(IsLocked, 0))
              && (t.withdrawn.None? && !t.locked ==> reply.why.NotHead? && IsHead(db, t.root, reply.head))
  {
    var t := db.tracks[target];
    HeadIsHead(db, t.root);
    RevisionCommits(db, target, track);
    hide Sound, IsHead, Head, SupersedeTrack, Checked, Commit, RefusedReply;
    if t.withdrawn.Some? || t.locked {
      ClosedAtCommit(db, target, track);
    } else if IsHead(db, t.root, target) {
      HeadAtCommit(db, target, track);
    } else {
      NotHeadAtCommit(db, target, track);
    }
  }
}
