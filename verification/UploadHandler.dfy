/** ingest and its helpers in internal/api/subtitles.go, over tables the handler updates in place. */
module UploadHandler {
  import opened Wrappers
  import opened Catalogue
  import opened Sorting
  import opened Twins
  import opened Uploads
  import UploadReplies

  /** One request, undisturbed. */
  function Serve(db: Db, req: Request, diverge: Divergence): (Db, Reply) {
    var (db1, todo) := Prepare(db, req, diverge);
    Commit(db1, todo)
  }

  /** What a revision needs of the tables once its release is found. */
  ghost predicate RevisionFits(db: Db, r: int, req: Request, diverge: Divergence)
    requires r in db.releases
  {
    && db.releases[r].withdrawn.None? && NobodySays(db, NewTrack(req, r))
    && req.supersedes in db.tracks && req.supersedes != 0
    && (var target := db.tracks[req.supersedes];
        && target.releaseId == r && target.lang == req.lang && !target.locked && IsHead(db, target.root, req.supersedes)
        && (req.generated ==> target.generated) && diverge(target.body, req.body) == Close)
  }

  lemma FoundIffSaid(db: Db, req: Request, r: int)
    requires WellKept(db)
    ensures FindIdenticalTrack(db, r, req.lang, req.body) == 0 <==> NobodySays(db, NewTrack(req, r))
  {
  }

  lemma ProposedIff(db: Db, r: int, req: Request, diverge: Divergence)
    requires WellKept(db) && r in db.releases
    ensures PrepareFor(db, r, req, diverge).1.Supersede? <==> RevisionFits(db, r, req, diverge)
    ensures PrepareFor(db, r, req, diverge).1.Nothing? ==> !PrepareFor(db, r, req, diverge).1.reply.Revised?
  {
    FoundIffSaid(db, req, r);
    if req.supersedes in db.tracks {
      HeadIsHead(db, db.tracks[req.supersedes].root);
      assert IsHead(db, db.tracks[req.supersedes].root, req.supersedes) && req.supersedes != 0 ==>
          db.tracks[req.supersedes].Live();
    }
    hide FindIdenticalTrack, NobodySays, Head, IsHead, WellKept;
  }

  /** When a request becomes a revision: its release is up, its text is new there, and what it names is
      a live, unlocked head in the same release and language, close enough in text, and machine-made
      if the request is. */
  lemma RevisedIff(db: Db, req: Request, diverge: Divergence)
    requires Sound(db)
    ensures var (db1, r) := GetOrCreateRelease(db, req.oshash, req.phash, req.durationMs);
            r in db1.releases && (Serve(db, req, diverge).1.Revised? <==> RevisionFits(db1, r, req, diverge))
  {
    var (db1, r) := GetOrCreateRelease(db, req.oshash, req.phash, req.durationMs);
    ReleaseKeepsSound(db, req.oshash, req.phash, req.durationMs);
    ProposedIff(db1, r, req, diverge);
    UndisturbedRevisionSucceeds(db, req, diverge);
    CommitRevisesOnlyProposals(Prepare(db, req, diverge).0, Prepare(db, req, diverge).1);
    hide GetOrCreateRelease, Sound, Commit, PrepareFor, RevisionFits;
  }

  lemma CommitRevisesOnlyProposals(db: Db, todo: Todo)
    ensures Commit(db, todo).1.Revised? ==> todo.Supersede? || todo.Nothing?
    ensures todo.Nothing? ==> Commit(db, todo).1 == todo.reply
  {
    hide SupersedeTrack;
  }

  /** Ids of a chain in order. */
  function ChainIds(db: Db, root: int, n: nat): seq<int> {
    if n == 0 then [] else ChainIds(db, root, n - 1) + if InChain(db, root, false, n - 1) then [n - 1] else []
  }

  /** ORDER BY revision, id. */
  function ByRevision(db: Db): int -> int {
    t => if t in db.tracks then db.tracks[t].revision * db.nextTrack + t else t
  }

  function SortedIds(db: Db, root: int): seq<int> {
    if db.nextTrack < 0 then [] else SortBy(ChainIds(db, root, db.nextTrack), ByRevision(db))
  }

  datatype ChainRow = ChainRow(id: int, track: TrackRow)

  function TrackChain(db: Db, root: int): (chain: seq<ChainRow>)
    requires WellKept(db)
    ensures |chain| == |SortedIds(db, root)|
  {
    SortedIdsList(db, root);
    var ids := SortedIds(db, root);
    seq(|ids|, i requires 0 <= i < |ids| => assert ids[i] in ids; ChainRow(ids[i], db.tracks[ids[i]]))
  }

  /** `chain[i]` is the first live row of the highest revision; -1 if every row is withdrawn. */
  ghost predicate FirstHighest(chain: seq<ChainRow>, i: int) {
    if i == -1 then forall j :: 0 <= j < |chain| ==> !chain[j].track.Live()
    else
      && 0 <= i < |chain| && chain[i].track.Live()
      && forall j :: 0 <= j < |chain| && chain[j].track.Live() ==>
        chain[j].track.revision < chain[i].track.revision ||
            (chain[j].track.revision == chain[i].track.revision && i <= j)
  }

  method ChainHead(chain: seq<ChainRow>) returns (head: int)
    ensures FirstHighest(chain, head)
  {
    head := -1;
    for i := 0 to |chain|
      invariant FirstHighest(chain[..i], head)
    {
      var t := chain[i].track;
      if t.withdrawn.Some? {
        continue;
      }
      if head == -1 || t.revision > chain[head].track.revision {
        head := i;
      }
    }
    assert chain[..|chain|] == chain;
  }

  lemma {:induction false} ChainIdsMembers(db: Db, root: int, n: nat, t: int)
    ensures t in ChainIds(db, root, n) <==> 0 <= t < n && InChain(db, root, false, t)
  {
    if n > 0 {
      ChainIdsMembers(db, root, n - 1, t);
    }
  }

  lemma SortedIdsList(db: Db, root: int)
    requires WellKept(db)
    ensures Sorted(SortedIds(db, root), ByRevision(db))
    ensures forall t :: t in SortedIds(db, root) <==> InChain(db, root, false, t)
  {
    var ids, chain := ChainIds(db, root, db.nextTrack), SortedIds(db, root);
    SortByIsStableSort(ids, ByRevision(db));
    forall t ensures t in chain <==> InChain(db, root, false, t) {
      ChainIdsMembers(db, root, db.nextTrack, t);
      assert t in chain <==> t in multiset(chain);
      assert t in ids <==> t in multiset(ids);
    }
  }

  lemma SameRevisionById(db: Db, t: int, u: int)
    requires t in db.tracks && u in db.tracks && db.tracks[t].revision == db.tracks[u].revision
    ensures ByRevision(db)(t) <= ByRevision(db)(u) <==> t <= u
  {
    var base := db.tracks[t].revision * db.nextTrack;
    assert ByRevision(db)(t) == base + t && ByRevision(db)(u) == base + u;
  }

  /** The two reckonings of the head agree. */
  lemma HeadOfSortedChain(db: Db, root: int, i: int)
    requires WellKept(db) && FirstHighest(TrackChain(db, root), i)
    ensures IsHead(db, root, if i == -1 then 0 else TrackChain(db, root)[i].id)
  {
    var ids, chain := SortedIds(db, root), TrackChain(db, root);
    SortedIdsList(db, root);
    hide SortedIds;
    forall t | t in db.tracks && InChain(db, root, true, t)
      ensures i != -1 && (db.tracks[t].revision < chain[i].track.revision
                          || (db.tracks[t].revision == chain[i].track.revision && chain[i].id <= t))
    {
      assert InChain(db, root, false, t);
      var j :| 0 <= j < |ids| && ids[j] == t;
      assert chain[j] == ChainRow(t, db.tracks[t]);
      assert i != -1;
      if db.tracks[t].revision == chain[i].track.revision && i < j {
        assert ids[i] in ids;
        SameRevisionById(db, ids[i], t);
        assert ByRevision(db)(ids[i]) <= ByRevision(db)(ids[j]);
      }
    }
    assert i != -1 ==> ids[i] in ids && InChain(db, root, false, ids[i]);
  }

  lemma CommittingKeepsKept(db: Db, todo: Todo)
    requires WellKept(db)
    ensures WellKept(Commit(db, todo).0)
  {
    hide MaxRevision, Superseded, Head;
  }

  lemma PreparingKeepsKept(db: Db, req: Request, diverge: Divergence)
    requires WellKept(db)
    ensures WellKept(Prepare(db, req, diverge).0)
  {
    GetOrCreateReleaseFinds(db, req.oshash, req.phash, req.durationMs);
    var (db1, r) := GetOrCreateRelease(db, req.oshash, req.phash, req.durationMs);
    var existing := FindIdenticalTrack(db1, r, req.lang, req.body);
    hide GetOrCreateRelease, Propose, FindIdenticalTrack;
    assert existing != 0 ==> WellKept(DuplicateOf(db1, existing, req).0);
  }

  lemma ServingKeepsKept(db: Db, req: Request, diverge: Divergence)
    requires WellKept(db)
    ensures WellKept(Serve(db, req, diverge).0)
  {
    PreparingKeepsKept(db, req, diverge);
    CommittingKeepsKept(Prepare(db, req, diverge).0, Prepare(db, req, diverge).1);
    hide WellKept, Prepare, Commit;
  }

  lemma ServingKeepsSound(db: Db, req: Request, diverge: Divergence)
    ensures Sound(db) ==> Sound(Serve(db, req, diverge).0)
  {
    if Sound(db) {
      PrepareKeepsSound(db, req, diverge);
      CommitKeepsSound(Prepare(db, req, diverge).0, Prepare(db, req, diverge).1);
    }
    hide Sound, Prepare, Commit;
  }

  lemma ServingAnswers(db: Db, req: Request, diverge: Divergence)
    ensures Sound(db) ==>
              var (after, reply) := Serve(db, req, diverge); UploadReplies.Answered(db, req, diverge, after, reply)
  {
    hide Sound, Prepare, Commit, UploadReplies.Answered;
    if Sound(db) {
      UploadReplies.EveryAnswerIsDue(db, req, diverge);
    }
  }

  class Node {
    var db: Db
    const diverge: Divergence

    constructor (diverge: Divergence)
      ensures db == EMPTY && WellKept(db) && Sound(db) && this.diverge == diverge
    {
      db := EMPTY;
      this.diverge := diverge;
    }

    /** Names the current head. */
    method NotHeadRefusal(target: int) returns (head: int)
      requires WellKept(db) && target in db.tracks
      ensures head == Head(db, db.tracks[target].root)
    {
      var root := db.tracks[target].root;
      var chain := TrackChain(db, root);
      var i := ChainHead(chain);
      HeadOfSortedChain(db, root, i);
      HeadIsHead(db, root);
      hide Head;
      return if i == -1 then 0 else chain[i].id;
    }

    method DuplicateTrackResponse(existing: int, req: Request) returns (reply: Reply)
      requires existing in db.tracks
      modifies this`db
      ensures (db, reply) == DuplicateOf(old(db), existing, req)
    {
      var t := db.tracks[existing];
      if t.withdrawn.Some? {
        return TrackGone;
      }
      if t.uploader.None? || t.uploader.value != req.account {
        return Duplicate(existing);
      }
      if req.kind.Some? && (req.kind.value != t.kind || req.kindLabel != t.kindLabel) {
        db := WithTrack(db, existing, db.tracks[existing].(kind := req.kind.value, kindLabel := req.kindLabel));
      }
      if req.authorship.Some? || req.declared {
        var row := db.tracks[existing];
        db := WithTrack(db, existing,
                        row.(authorship := if req.authorship.Some? then req.authorship.value else row.authorship,
                             declared := row.declared || req.declared));
      }
      assert db.tracks == DuplicateOf(old(db), existing, req).0.tracks;
      return Duplicate(existing);
    }

    method PlainTrackWithDecline(track: TrackRow, reason: string) returns (reply: Reply)
      requires reason != ""
      modifies this`db
      ensures (db, reply) == Commit(old(db), Create(track, reason))
    {
      match CreateTrack(db, track) {
        case None => return InternalError;
        case Some((after, id)) =>
          db := after;
          return Declined(id, reason);
      }
    }

    method IngestSupersede(targetId: int, req: Request, releaseId: int) returns (reply: Reply)
      requires WellKept(db)
      requires targetId == req.supersedes
      modifies this`db
      ensures (db, reply) == Commit(old(db), Propose(old(db), req, releaseId, diverge))
    {
      var track := NewTrack(req, releaseId);
      if targetId !in db.tracks {
        return Refused(NotFound, 0);
      }
      var target := db.tracks[targetId];
      if target.releaseId != releaseId || target.lang != req.lang {
        return Refused(Mismatch, 0);
      }
      if target.withdrawn.Some? {
        return Refused(IsWithdrawn, 0);
      }
      if target.locked {
        return Refused(IsLocked, 0);
      }
      var head := NotHeadRefusal(targetId);
      if head != targetId {
        return Refused(NotHead, head);
      }
      if track.generated && !target.generated {
        return MachineOverHuman;
      }
      match diverge(target.body, req.body) {
        case Unreadable =>
          return InternalError;
        case PureRetime =>
          reply := PlainTrackWithDecline(track, "retime");
        case TooDifferent =>
          reply := PlainTrackWithDecline(track, "too_different");
        case Close =>
          match SupersedeTrack(db, targetId, track) {
            case Failure(NotHead) =>
              var now := NotHeadRefusal(targetId);
              return Refused(NotHead, now);
            case Failure(why) =>
              return RefusedReply(db, targetId, why);
            case Success((after, id)) =>
              db := after;
              return Revised(id, targetId);
          }
      }
    }

    /** The store-facing half of ingest. */
    method Ingest(req: Request) returns (reply: Reply)
      requires WellKept(db)
      modifies this`db
      ensures (db, reply) == Serve(old(db), req, diverge)
      ensures WellKept(db) && (Sound(old(db)) ==> Sound(db))
      ensures Sound(old(db)) ==> UploadReplies.Answered(old(db), req, diverge, db, reply)
    {
      ServingKeepsKept(db, req, diverge);
      ServingKeepsSound(db, req, diverge);
      ServingAnswers(db, req, diverge);
      hide Sound, WellKept, UploadReplies.Answered;
      GetOrCreateReleaseFinds(db, req.oshash, req.phash, req.durationMs);
      var (found, r) := GetOrCreateRelease(db, req.oshash, req.phash, req.durationMs);
      db := found;
      hide GetOrCreateRelease, Head, IdenticalFrom, Propose;
      if found.releases[r].withdrawn.Some? {
        return ReleaseGone;
      }
      var existing := FindIdenticalTrack(found, r, req.lang, req.body);
      if existing != 0 {
        reply := DuplicateTrackResponse(existing, req);
      } else if req.supersedes != 0 {
        reply := IngestSupersede(req.supersedes, req, r);
      } else {
        match CreateTrack(found, NewTrack(req, r)) {
          case None => return InternalError;
          case Some((after, id)) =>
            db := after;
            return Created(id);
        }
      }
    }
  }
}
