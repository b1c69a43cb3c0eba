/** Upload and supersede in internal/api/subtitles.go, and the revision chains they build.

    A request runs in two steps, with anything in between: Prepare reads and checks, corrects a
    duplicate, and says what is left to do; Commit creates the track or supersedes its target,
    rechecking what SupersedeTrack rechecks. Parsing, rendering, detection and the rate limiters
    come before; how far two bodies diverge is a parameter.
 */
module Uploads {
  import opened Wrappers
  import opened PHashing
  import opened Catalogue

  /** A validated upload; `body` is the rendered text, `generated` what detection said. An omitted
      kind or authorship is None, and `supersedes` is 0 for an ordinary upload. */
  datatype Request = Request(
    account: int, oshash: string, phash: Option<PHash>, durationMs: int, lang: string, body: string,
    generated: bool, declared: bool, kind: Option<string>, kindLabel: Option<string>, authorship: Option<string>,
    supersedes: int)

  datatype Verdict = Unreadable | PureRetime | TooDifferent | Close

  /** The stored body against the proposed one. */
  type Divergence = (string, string) -> Verdict

  datatype Reply =
    | Created(id: int)
    | Declined(id: int, reason: string)
    | Revised(id: int, parent: int)
    | Duplicate(id: int)
    | ReleaseGone
    | TrackGone
    | Refused(why: Refusal, head: int)
    | MachineOverHuman
    | InternalError

  datatype Todo =
    | Nothing(reply: Reply)
    | Create(track: TrackRow, declined: string)
    | Supersede(target: int, track: TrackRow)

  function NewTrack(req: Request, releaseId: int): TrackRow {
    TrackRow(releaseId, req.lang, req.body, req.generated, req.declared, Some(req.account),
             if req.kind.Some? then req.kind.value else "default", req.kindLabel,
             if req.authorship.Some? then req.authorship.value else "shared", None, 0, 0, None, false)
  }

  // -- The head of a chain -------------------------------------------------------

  /** `h` is the live row of the highest revision, the oldest of them if several; 0 if none is live. */
  ghost predicate IsHead(db: Db, root: int, h: int) {
    if h == 0 then forall t :: t in db.tracks ==> !InChain(db, root, true, t)
    else InChain(db, root, true, h) && forall t :: t in db.tracks && InChain(db, root, true, t) ==>
      db.tracks[t].revision < db.tracks[h].revision || (db.tracks[t].revision == db.tracks[h].revision && h <= t)
  }

  /** The head among ids below `n`. */
  function HeadBelow(db: Db, root: int, n: nat): int {
    if n == 0 then 0
    else
      var h := HeadBelow(db, root, n - 1);
      if InChain(db, root, true, n - 1) && (h !in db.tracks || db.tracks[n - 1].revision > db.tracks[h].revision)
      then n - 1 else h
  }

  function Head(db: Db, root: int): int {
    if db.nextTrack < 0 then 0 else HeadBelow(db, root, db.nextTrack)
  }

  lemma {:induction false} HeadBelowIsHead(db: Db, root: int, n: nat)
    requires WellKept(db) && n <= db.nextTrack
    ensures var h := HeadBelow(db, root, n);
            if h == 0 then forall t :: t in db.tracks && t < n ==> !InChain(db, root, true, t)
            else
              && h < n && InChain(db, root, true, h)
              && forall t :: t in db.tracks && t < n && InChain(db, root, true, t) ==>
                db.tracks[t].revision < db.tracks[h].revision
                || (db.tracks[t].revision == db.tracks[h].revision && h <= t)
  {
    if n > 0 {
      HeadBelowIsHead(db, root, n - 1);
    }
  }

  lemma HeadIsHead(db: Db, root: int)
    requires WellKept(db)
    ensures IsHead(db, root, Head(db, root))
    ensures forall h :: IsHead(db, root, h) ==> h == Head(db, root)
  {
    HeadBelowIsHead(db, root, db.nextTrack);
    hide HeadBelow;
  }

  // -- A request ---------------------------------------------------------------

  /** What a re-upload by its own uploader corrects: stated kind and authorship replace the stored
      ones, a declaration is only ever added. */
  function Corrected(t: TrackRow, req: Request): TrackRow {
    t.(kind := if req.kind.Some? then req.kind.value else t.kind,
       kindLabel := if req.kind.Some? then req.kindLabel else t.kindLabel,
       authorship := if req.authorship.Some? then req.authorship.value else t.authorship,
       declared := t.declared || req.declared)
  }

  function DuplicateOf(db: Db, id: int, req: Request): (Db, Reply)
    requires id in db.tracks
  {
    var t := db.tracks[id];
    if !t.Live() then (db, TrackGone)
    else if t.uploader != Some(req.account) then (db, Duplicate(id))
    else (WithTrack(db, id, Corrected(t, req)), Duplicate(id))
  }

  function Propose(db: Db, req: Request, releaseId: int, diverge: Divergence): Todo {
    var track := NewTrack(req, releaseId);
    if req.supersedes !in db.tracks then Nothing(Refused(NotFound, 0))
    else
      var target := db.tracks[req.supersedes];
      if target.releaseId != releaseId || target.lang != req.lang then Nothing(Refused(Mismatch, 0))
      else if !target.Live() then Nothing(Refused(IsWithdrawn, 0))
      else if target.locked then Nothing(Refused(IsLocked, 0))
      else if Head(db, target.root) != req.supersedes then Nothing(Refused(NotHead, Head(db, target.root)))
      else if track.generated && !target.generated then Nothing(MachineOverHuman)
      else
        match diverge(target.body, req.body)
        case Unreadable => Nothing(InternalError)
        case PureRetime => Create(track, "retime")
        case TooDifferent => Create(track, "too_different")
        case Close => Supersede(req.supersedes, track)
  }

  /** With the release in hand. */
  function PrepareFor(db: Db, r: int, req: Request, diverge: Divergence): (Db, Todo)
    requires r in db.releases
  {
    if db.releases[r].withdrawn.Some? then (db, Nothing(ReleaseGone))
    else
      var existing := FindIdenticalTrack(db, r, req.lang, req.body);
      if existing != 0 then
        var (db2, reply) := DuplicateOf(db, existing, req);
        (db2, Nothing(reply))
      else if req.supersedes != 0 then (db, Propose(db, req, r, diverge))
      else (db, Create(NewTrack(req, r), ""))
  }

  function Prepare(db: Db, req: Request, diverge: Divergence): (Db, Todo) {
    var (db1, r) := GetOrCreateRelease(db, req.oshash, req.phash, req.durationMs);
    if r in db1.releases then PrepareFor(db1, r, req, diverge) else (db1, Nothing(InternalError))
  }

  function Commit(db: Db, todo: Todo): (Db, Reply) {
    match todo
    case Nothing(reply) => (db, reply)
    case Create(track, declined) =>
      (match CreateTrack(db, track)
       case Some((db', id)) => (db', if declined == "" then Created(id) else Declined(id, declined))
       case None => (db, InternalError))
    case Supersede(target, track) =>
      (match SupersedeTrack(db, target, track)
       case Success((db', id)) => (db', Revised(id, target))
       case Failure(why) => (db, RefusedReply(db, target, why)))
  }

  function RefusedReply(db: Db, target: int, why: Refusal): (r: Reply)
    ensures !r.Revised?
  {
    match why
    case IsWithdrawn => Refused(IsWithdrawn, 0)
    case IsLocked => Refused(IsLocked, 0)
    case NotHead => Refused(NotHead, if target in db.tracks then Head(db, db.tracks[target].root) else 0)
    case _ => InternalError
  }

  // -- Sound chains ----------------------------------------------------------------

  /** What a superseding row shares with the one it supersedes. Detection only goes one way: what
      a machine made never replaces what a person made. */
  predicate Link(parent: TrackRow, child: TrackRow) {
    && parent.releaseId == child.releaseId && parent.lang == child.lang && parent.root == child.root
    && parent.revision < child.revision && (child.generated ==> parent.generated)
  }

  predicate SoundTrack(db: Db, id: int)
    requires id in db.tracks
  {
    var t := db.tracks[id];
    match t.supersedes
    case None => t.root == id && t.revision == 1
    case Some(p) => p < id && p in db.tracks && t.root in db.tracks && t.revision > 1 && Link(db.tracks[p], t)
  }

  ghost predicate AllSound(db: Db) {
    forall id :: id in db.tracks ==> SoundTrack(db, id)
  }

  predicate SameRevision(t: TrackRow, u: TrackRow) {
    t.root == u.root && t.revision == u.revision
  }

  ghost predicate DistinctRevisions(db: Db) {
    forall t, u :: t in db.tracks && u in db.tracks && SameRevision(db.tracks[t], db.tracks[u]) ==> t == u
  }

  ghost predicate Sound(db: Db) {
    WellKept(db) && AllSound(db) && DistinctRevisions(db) && IndexHolds(db)
  }

  /** The columns nothing but insertion writes, and a disclosure, which is never taken back. */
  predicate SameShape(t: TrackRow, u: TrackRow) {
    && t.releaseId == u.releaseId && t.lang == u.lang && t.body == u.body && t.generated == u.generated
    && t.uploader == u.uploader && t.root == u.root && t.revision == u.revision && t.supersedes == u.supersedes
    && (t.declared ==> u.declared)
  }

  /** `after` differs from `before` in flags and corrections only. */
  ghost predicate OnlyFlags(before: Db, after: Db) {
    && after.tracks.Keys == before.tracks.Keys && after.nextTrack == before.nextTrack
    && (forall t :: t in before.tracks ==> SameShape(before.tracks[t], after.tracks[t]))
  }

  lemma FlagsKeepTracksSound(before: Db, after: Db)
    requires AllSound(before) && OnlyFlags(before, after)
    ensures AllSound(after)
  {
    forall id | id in after.tracks ensures SoundTrack(after, id) {
      assert SoundTrack(before, id) && SameShape(before.tracks[id], after.tracks[id]);
      var parent := before.tracks[id].supersedes;
      assert parent.Some? ==> SameShape(before.tracks[parent.value], after.tracks[parent.value]);
    }
  }

  lemma FlagsKeepRevisionsDistinct(before: Db, after: Db)
    requires DistinctRevisions(before) && OnlyFlags(before, after)
    ensures DistinctRevisions(after)
  {
    forall t, u | t in after.tracks && u in after.tracks && SameRevision(after.tracks[t], after.tracks[u])
        ensures t == u {
      assert SameShape(before.tracks[t], after.tracks[t]) && SameShape(before.tracks[u], after.tracks[u]);
      assert SameRevision(before.tracks[t], before.tracks[u]);
    }
  }

  /** The same releases, some of them taken down or brought back. */
  ghost predicate SameReleases(before: Db, after: Db) {
    && after.releases.Keys == before.releases.Keys && after.nextRelease == before.nextRelease
    && forall r :: r in before.releases ==> after.releases[r].oshash == before.releases[r].oshash
  }

  lemma FlagsKeepSound(before: Db, after: Db)
    requires Sound(before) && OnlyFlags(before, after) && SameReleases(before, after) && IndexHolds(after)
    ensures Sound(after)
  {
    FlagsKeepTracksSound(before, after);
    FlagsKeepRevisionsDistinct(before, after);
    assert WellKept(after) by {
      assert forall t :: t in before.tracks ==> SameShape(before.tracks[t], after.tracks[t]);
    }
    hide AllSound, DistinctRevisions, IndexHolds, WellKept;
  }

  /** No takedown is undone. */
  ghost predicate NoneRestored(before: Db, after: Db) {
    forall t :: t in before.tracks && t in after.tracks && after.tracks[t].Live() ==> before.tracks[t].Live()
  }

  lemma FewerLiveKeepIndex(before: Db, after: Db)
    requires IndexHolds(before) && OnlyFlags(before, after) && NoneRestored(before, after)
    ensures IndexHolds(after)
  {
    forall t, u | t in after.tracks && u in after.tracks && after.tracks[t].Live() && after.tracks[u].Live() &&
                  after.tracks[t].supersedes.Some? && after.tracks[t].supersedes == after.tracks[u].supersedes
      ensures t == u
    {
      assert SameShape(before.tracks[t], after.tracks[t]) && SameShape(before.tracks[u], after.tracks[u]);
    }
  }

  /** A flag or a correction on one track that does not bring it back. */
  lemma FlagKeepsSound(db: Db, id: int, t: TrackRow)
    requires Sound(db) && id in db.tracks && SameShape(db.tracks[id], t) && (t.Live() ==> db.tracks[id].Live())
    ensures Sound(WithTrack(db, id, t)) && OnlyFlags(db, WithTrack(db, id, t))
  {
    FewerLiveKeepIndex(db, WithTrack(db, id, t));
    FlagsKeepSound(db, WithTrack(db, id, t));
    hide AllSound, DistinctRevisions, IndexHolds, WellKept;
  }

  lemma WithdrawKeepsSound(db: Db, id: int, now: int)
    requires Sound(db)
    ensures Sound(WithdrawTrack(db, id, now)) && OnlyFlags(db, WithdrawTrack(db, id, now))
  {
    hide AllSound, DistinctRevisions, IndexHolds, WellKept;
    if id in db.tracks {
      FlagKeepsSound(db, id, db.tracks[id].(withdrawn := Some(now)));
    }
  }

  lemma LockKeepsSound(db: Db, id: int, locked: bool)
    requires Sound(db)
    ensures Sound(LockTrack(db, id, locked)) && OnlyFlags(db, LockTrack(db, id, locked))
  {
    hide AllSound, DistinctRevisions, IndexHolds, WellKept;
    if id in db.tracks {
      FlagKeepsSound(db, id, db.tracks[id].(locked := locked));
    }
  }

  lemma SetKindKeepsSound(db: Db, id: int, kind: string, kindLabel: Option<string>)
    requires Sound(db)
    ensures Sound(SetKind(db, id, kind, kindLabel)) && OnlyFlags(db, SetKind(db, id, kind, kindLabel))
  {
    hide AllSound, DistinctRevisions, IndexHolds, WellKept;
    if id in db.tracks {
      FlagKeepsSound(db, id, db.tracks[id].(kind := kind, kindLabel := kindLabel));
    }
  }

  lemma RestoreKeepsIndex(db: Db, id: int)
    requires IndexHolds(db)
    ensures IndexHolds(RestoreTrack(db, id))
  {
  }

  lemma RestoreKeepsSound(db: Db, id: int)
    requires Sound(db)
    ensures Sound(RestoreTrack(db, id)) && OnlyFlags(db, RestoreTrack(db, id))
  {
    RestoreKeepsIndex(db, id);
    hide AllSound, DistinctRevisions, IndexHolds, WellKept, Superseded;
    FlagsKeepSound(db, RestoreTrack(db, id));
  }

  lemma WithdrawReleaseKeepsSound(db: Db, id: int, now: int)
    requires Sound(db)
    ensures Sound(WithdrawRelease(db, id, now)) && OnlyFlags(db, WithdrawRelease(db, id, now))
  {
    hide AllSound, DistinctRevisions, IndexHolds, WellKept;
    FewerLiveKeepIndex(db, WithdrawRelease(db, id, now));
    FlagsKeepSound(db, WithdrawRelease(db, id, now));
  }

  lemma RestoreReleaseKeepsSound(db: Db, id: int)
    requires Sound(db)
    ensures Sound(RestoreRelease(db, id)) && OnlyFlags(db, RestoreRelease(db, id))
  {
    hide AllSound, DistinctRevisions, IndexHolds, WellKept;
    FlagsKeepSound(db, RestoreRelease(db, id));
  }

  // Insertion

  lemma InsertKeepsSound(db: Db, row: TrackRow)
    requires Sound(db) && MayInsert(db, row) && SoundTrack(AddRow(db, row), db.nextTrack)
    requires NewRevision(db, row)
    ensures Sound(AddRow(db, row))
  {
    hide AllSound, DistinctRevisions, IndexHolds, WellKept, NewRevision, SoundTrack, AddRow, Superseded;
    KeptAfterInsert(db, row);
    ChainsAfterInsert(db, row);
    RevisionsAfterInsert(db, row);
    IndexAfterInsert(db, row);
  }

  ghost predicate NewRevision(db: Db, row: TrackRow) {
    forall t :: t in db.tracks ==> !SameRevision(db.tracks[t], row)
  }

  lemma KeptAfterInsert(db: Db, row: TrackRow)
    requires WellKept(db) && row.releaseId in db.releases
    ensures WellKept(AddRow(db, row))
  {
  }

  lemma ChainsAfterInsert(db: Db, row: TrackRow)
    requires WellKept(db) && AllSound(db) && SoundTrack(AddRow(db, row), db.nextTrack)
    ensures AllSound(AddRow(db, row))
  {
    var after := AddRow(db, row);
    forall id | id in after.tracks ensures SoundTrack(after, id) {
      assert id in db.tracks ==> SoundTrack(db, id);
    }
  }

  lemma RevisionsAfterInsert(db: Db, row: TrackRow)
    requires WellKept(db) && DistinctRevisions(db) && NewRevision(db, row)
    ensures DistinctRevisions(AddRow(db, row))
  {
  }

  lemma IndexAfterInsert(db: Db, row: TrackRow)
    requires WellKept(db) && IndexHolds(db) && MayInsert(db, row)
    ensures IndexHolds(AddRow(db, row))
  {
    assert row.supersedes.Some? ==> forall t :: t in db.tracks && db.tracks[t].Live() ==>
        db.tracks[t].supersedes != row.supersedes;
  }

  /** A fresh chain of one. */
  lemma CreateKeepsSound(db: Db, t: TrackRow)
    requires Sound(db) && t.root == 0 && t.revision == 0 && t.supersedes.None? && t.releaseId in db.releases
    ensures CreateTrack(db, t) == Some((AddRow(db, t.(root := db.nextTrack, revision := 1)), db.nextTrack))
    ensures Sound(CreateTrack(db, t).value.0) && db.nextTrack !in db.tracks
  {
    var row := t.(root := db.nextTrack, revision := 1);
    RootsAreKept(db);
    assert db.nextTrack !in db.tracks;
    hide AllSound, DistinctRevisions, IndexHolds, WellKept;
    InsertKeepsSound(db, row);
  }

  lemma RootsAreKept(db: Db)
    requires WellKept(db) && AllSound(db)
    ensures forall t :: t in db.tracks ==> db.tracks[t].root in db.tracks
  {
    forall t | t in db.tracks ensures db.tracks[t].root in db.tracks {
      assert SoundTrack(db, t);
    }
  }

  /** What a successful supersede did: it extended the chain at its live, unlocked head. */
  ghost predicate Extended(db: Db, target: int, track: TrackRow, db': Db, id: int) {
    && target in db.tracks && db.tracks[target].Live() && !db.tracks[target].locked
    && IsHead(db, db.tracks[target].root, target)
    && id == db.nextTrack && id !in db.tracks && db'.tracks.Keys == db.tracks.Keys + {id}
    && (forall t :: t in db.tracks ==> db'.tracks[t] == db.tracks[t])
    && db'.releases == db.releases
    && db'.tracks[id].supersedes == Some(target) && db'.tracks[id].root == db.tracks[target].root
    && (forall t :: t in db.tracks && db.tracks[t].root == db.tracks[target].root ==>
       db.tracks[t].revision < db'.tracks[id].revision)
    && db'.tracks[id].body == track.body && db'.tracks[id].Live()
  }

  function NextRevision(db: Db, target: int, track: TrackRow): TrackRow
    requires target in db.tracks && db.nextTrack >= 0
  {
    track.(root := db.tracks[target].root, supersedes := Some(target),
           revision := MaxRevision(db, db.tracks[target].root, false, db.nextTrack) + 1)
  }

  lemma RevisionsBelowNext(db: Db, target: int, track: TrackRow)
    requires WellKept(db) && target in db.tracks
    ensures forall t :: t in db.tracks && db.tracks[t].root == db.tracks[target].root ==>
              db.tracks[t].revision < NextRevision(db, target, track).revision
  {
    forall t | t in db.tracks && db.tracks[t].root == db.tracks[target].root
      ensures db.tracks[t].revision < NextRevision(db, target, track).revision
    {
      assert InChain(db, db.tracks[target].root, false, t);
    }
  }

  /** The live head by revision number is the head the refusal message names. */
  lemma HeadByRevision(db: Db, target: int)
    requires WellKept(db) && AllSound(db) && DistinctRevisions(db) && target in db.tracks && db.tracks[target].Live()
    ensures IsHead(db, db.tracks[target].root, target)
            <==> db.tracks[target].revision == MaxRevision(db, db.tracks[target].root, true, db.nextTrack)
  {
    var root := db.tracks[target].root;
    var m := MaxRevision(db, root, true, db.nextTrack);
    assert InChain(db, root, true, target) && SoundTrack(db, target);
    if db.tracks[target].revision == m {
      forall t | t in db.tracks && InChain(db, root, true, t) && db.tracks[t].revision == m ensures t == target {
        assert SameRevision(db.tracks[t], db.tracks[target]);
      }
    }
    hide MaxRevision;
  }

  lemma SupersedeInserts(db: Db, target: int, track: TrackRow)
    requires WellKept(db) && AllSound(db) && DistinctRevisions(db) && SupersedeTrack(db, target, track).Success?
    ensures SupersedeTrack(db, target, track).value == (AddRow(db, NextRevision(db, target, track)), db.nextTrack)
    ensures MayInsert(db, NextRevision(db, target, track))
    ensures db.tracks[target].Live() && !db.tracks[target].locked && IsHead(db, db.tracks[target].root, target)
  {
    SupersedeUnfolds(db, target, track);
    hide SupersedeTrack, MaxRevision, AllSound, DistinctRevisions, IsHead, MayInsert, NextRevision, AddRow;
    HeadByRevision(db, target);
  }

  lemma SupersedeUnfolds(db: Db, target: int, track: TrackRow)
    requires WellKept(db) && SupersedeTrack(db, target, track).Success?
    ensures target in db.tracks && db.tracks[target].Live() && !db.tracks[target].locked
    ensures db.tracks[target].revision == MaxRevision(db, db.tracks[target].root, true, db.nextTrack)
    ensures SupersedeTrack(db, target, track).value == (AddRow(db, NextRevision(db, target, track)), db.nextTrack)
    ensures MayInsert(db, NextRevision(db, target, track))
  {
    hide MaxRevision, MayInsert, AddRow;
  }

  lemma SupersedeExtends(db: Db, target: int, track: TrackRow)
    requires Sound(db) && track.Live() && SupersedeTrack(db, target, track).Success?
    ensures var (db', id) := SupersedeTrack(db, target, track).value; Extended(db, target, track, db', id)
    ensures SupersedeTrack(db, target, track).value == (AddRow(db, NextRevision(db, target, track)), db.nextTrack)
    ensures MayInsert(db, NextRevision(db, target, track))
  {
    SupersedeInserts(db, target, track);
    RevisionsBelowNext(db, target, track);
    assert db.nextTrack !in db.tracks;
    hide Sound, WellKept, MaxRevision, IsHead, SupersedeTrack, MayInsert;
    InsertedExtends(db, target, track, NextRevision(db, target, track));
  }

  lemma InsertedExtends(db: Db, target: int, track: TrackRow, row: TrackRow)
    requires target in db.tracks && db.tracks[target].Live() && !db.tracks[target].locked
    requires IsHead(db, db.tracks[target].root, target) && db.nextTrack !in db.tracks
    requires row.supersedes == Some(target) && row.root == db.tracks[target].root && row.body == track.body &&
             row.Live()
    requires forall t :: t in db.tracks && db.tracks[t].root == db.tracks[target].root ==>
             db.tracks[t].revision < row.revision
    ensures Extended(db, target, track, AddRow(db, row), db.nextTrack)
  {
    hide IsHead;
  }

  lemma SupersedeKeepsSound(db: Db, target: int, track: TrackRow)
    requires Sound(db) && track.Live() && SupersedeTrack(db, target, track).Success?
    requires track.generated ==> db.tracks[target].generated
    ensures Sound(SupersedeTrack(db, target, track).value.0)
  {
    var row := NextRevision(db, target, track);
    SupersedeExtends(db, target, track);
    RevisionsBelowNext(db, target, track);
    NextIsSound(db, target, track);
    hide AllSound, DistinctRevisions, IndexHolds, WellKept, NextRevision, SupersedeTrack, Extended, SoundTrack;
    InsertKeepsSound(db, row);
  }

  lemma NextIsSound(db: Db, target: int, track: TrackRow)
    requires WellKept(db) && AllSound(db) && target in db.tracks && (track.generated ==> db.tracks[target].generated)
    requires track.releaseId == db.tracks[target].releaseId && track.lang == db.tracks[target].lang
    ensures SoundTrack(AddRow(db, NextRevision(db, target, track)), db.nextTrack)
    ensures NextRevision(db, target, track).root == db.tracks[target].root
  {
    RevisionsBelowNext(db, target, track);
    assert SoundTrack(db, target);
    hide MaxRevision, AllSound;
  }

  // -- One request, step by step -------------------------------------------------

  /** Rows are never lost, what insertion wrote never changes, and no disclosure is taken back. */
  ghost predicate Grows(before: Db, after: Db) {
    && (forall r :: r in before.releases ==>
          r in after.releases && after.releases[r].oshash == before.releases[r].oshash)
    && (forall t :: t in before.tracks ==> t in after.tracks && SameShape(before.tracks[t], after.tracks[t]))
  }

  lemma GrowsOn(a: Db, b: Db, c: Db)
    requires Grows(a, b) && Grows(b, c)
    ensures Grows(a, c)
  {
    forall t | t in a.tracks ensures t in c.tracks && SameShape(a.tracks[t], c.tracks[t]) {
      assert SameShape(a.tracks[t], b.tracks[t]);
    }
  }

  predicate FreshRow(db: Db, t: TrackRow) {
    t.root == 0 && t.revision == 0 && t.supersedes.None? && t.Live() && t.releaseId in db.releases
  }

  /** What was checked when the request was prepared and no later step can undo. */
  predicate Checked(db: Db, todo: Todo) {
    match todo
    case Nothing(_) => true
    case Create(track, _) => FreshRow(db, track)
    case Supersede(target, track) =>
      && FreshRow(db, track) && target in db.tracks
      && track.releaseId == db.tracks[target].releaseId && track.lang == db.tracks[target].lang
      && (track.generated ==> db.tracks[target].generated)
  }

  lemma CheckedStays(before: Db, after: Db, todo: Todo)
    requires Checked(before, todo) && Grows(before, after)
    ensures Checked(after, todo)
  {
    if todo.Supersede? {
      assert SameShape(before.tracks[todo.target], after.tracks[todo.target]);
    }
  }

  lemma ReleaseKeepsSound(db: Db, oshash: string, phash: Option<PHash>, durationMs: int)
    requires Sound(db)
    ensures var (db1, r) := GetOrCreateRelease(db, oshash, phash, durationMs);
            Sound(db1) && Grows(db, db1) && r in db1.releases && db1.tracks == db.tracks &&
                db1.nextTrack == db.nextTrack
  {
    hide GetOrCreateRelease, WellKept, AllSound, DistinctRevisions, IndexHolds;
    GetOrCreateReleaseFinds(db, oshash, phash, durationMs);
    var (db1, r) := GetOrCreateRelease(db, oshash, phash, durationMs);
    SameTracksSound(db, db1);
    assert db.nextRelease !in db.releases by { NextIsFree(db); }
  }

  lemma NextIsFree(db: Db)
    requires WellKept(db)
    ensures db.nextRelease !in db.releases
  {
  }

  /** Soundness of chains is about the tracks alone. */
  lemma SameTracksSound(before: Db, after: Db)
    requires Sound(before) && WellKept(after) && after.tracks == before.tracks
    ensures Sound(after)
  {
    assert forall id :: id in before.tracks ==> SoundTrack(before, id);
    hide WellKept;
  }

  lemma ProposalIsChecked(db: Db, req: Request, r: int, diverge: Divergence)
    requires r in db.releases
    ensures Checked(db, Propose(db, req, r, diverge))
  {
    hide Head;
  }

  lemma PrepareForKeepsSound(db: Db, r: int, req: Request, diverge: Divergence)
    requires Sound(db) && r in db.releases
    ensures var (db', todo) := PrepareFor(db, r, req, diverge);
            && Sound(db') && Grows(db, db') && OnlyFlags(db, db') && NoneRestored(db, db') && Checked(db', todo)
  {
    var existing := FindIdenticalTrack(db, r, req.lang, req.body);
    hide Sound, IdenticalFrom;
    ProposalIsChecked(db, req, r, diverge);
    hide Propose;
    if existing != 0 {
      CorrectionKeepsSound(db, existing, req);
      hide Corrected;
    }
  }

  lemma CorrectionKeepsSound(db: Db, id: int, req: Request)
    requires Sound(db) && id in db.tracks
    ensures var db' := WithTrack(db, id, Corrected(db.tracks[id], req));
            Sound(db') && Grows(db, db') && OnlyFlags(db, db') && NoneRestored(db, db')
  {
    FlagKeepsSound(db, id, Corrected(db.tracks[id], req));
    hide Sound;
  }

  /** Preparing adds no track, and at most corrects one. */
  lemma PrepareKeepsSound(db: Db, req: Request, diverge: Divergence)
    requires Sound(db)
    ensures var (db', todo) := Prepare(db, req, diverge);
            && Sound(db') && Grows(db, db') && OnlyFlags(db, db') && NoneRestored(db, db') && Checked(db', todo)
  {
    var (db1, r) := GetOrCreateRelease(db, req.oshash, req.phash, req.durationMs);
    ReleaseKeepsSound(db, req.oshash, req.phash, req.durationMs);
    PrepareForKeepsSound(db1, r, req, diverge);
    assert Grows(db, PrepareFor(db1, r, req, diverge).0) by {
      GrowsOn(db, db1, PrepareFor(db1, r, req, diverge).0);
    }
    assert OnlyFlags(db, PrepareFor(db1, r, req, diverge).0) && NoneRestored(db, PrepareFor(db1, r, req, diverge).0);
    hide *;
  }

  lemma CommitKeepsSound(db: Db, todo: Todo)
    requires Sound(db) && Checked(db, todo)
    ensures Sound(Commit(db, todo).0) && Grows(db, Commit(db, todo).0)
  {
    hide AllSound, DistinctRevisions, IndexHolds, WellKept, NextRevision, Superseded, MaxRevision, Head;
    match todo
    case Nothing(_) =>
    case Create(track, _) => CreateKeepsSound(db, track);
    case Supersede(target, track) =>
      if SupersedeTrack(db, target, track).Success? {
        SupersedeKeepsSound(db, target, track);
        SupersedeExtends(db, target, track);
        hide SupersedeTrack;
      }
  }

  /** A revision is only ever added onto the live, unlocked head, at the moment it is added; a
      refusal changes nothing. */
  lemma RevisionExtendsTheHead(db: Db, todo: Todo)
    requires Sound(db) && Checked(db, todo) && todo.Supersede?
    ensures var (db', reply) := Commit(db, todo);
            if reply.Revised? then reply.parent == todo.target && Extended(db, todo.target, todo.track, db', reply.id)
            else db' == db
  {
    if SupersedeTrack(db, todo.target, todo.track).Success? {
      SupersedeExtends(db, todo.target, todo.track);
    }
    hide RefusedReply, SupersedeTrack, Sound, Extended, Head, Checked, AddRow, NextRevision, MayInsert;
  }

  /** Everything else that is created, a declined revision included, is a chain of its own and
      leaves every other track alone. */
  lemma CreationStartsAChain(db: Db, todo: Todo)
    requires Sound(db) && Checked(db, todo) && todo.Create?
    ensures var (db', reply) := Commit(db, todo);
            && (reply == if todo.declined == "" then Created(db.nextTrack) else Declined(db.nextTrack, todo.declined))
            && db'.tracks == db.tracks[db.nextTrack := todo.track.(root := db.nextTrack, revision := 1)]
            && db.nextTrack !in db.tracks && forall t :: t in db.tracks ==> db.tracks[t].root != db.nextTrack
  {
    CreateKeepsSound(db, todo.track);
    RootsAreKept(db);
    hide CreateTrack;
  }

  /** The check before and the check at the commit agree: undisturbed, a revision that was found
      acceptable is accepted. */
  lemma UndisturbedRevisionSucceeds(db: Db, req: Request, diverge: Divergence)
    requires Sound(db)
    ensures var (db', todo) := Prepare(db, req, diverge);
            todo.Supersede? ==> Commit(db', todo).1 == Revised(db'.nextTrack, todo.target)
  {
    PrepareKeepsSound(db, req, diverge);
    var (db', todo) := Prepare(db, req, diverge);
    if todo.Supersede? {
      ProposedOntoHead(db, req, diverge);
      HeadCanBeSuperseded(db', todo.target, todo.track);
    }
    hide Prepare, Sound, SupersedeTrack, Head;
  }

  /** `target` is live, unlocked and the head by the refusal message's reckoning. */
  predicate Eligible(db: Db, target: int) {
    target in db.tracks && db.tracks[target].Live() && !db.tracks[target].locked &&
        Head(db, db.tracks[target].root) == target
  }

  lemma ProposedOntoHead(db: Db, req: Request, diverge: Divergence)
    requires Prepare(db, req, diverge).1.Supersede?
    ensures Eligible(Prepare(db, req, diverge).0, Prepare(db, req, diverge).1.target)
  {
    hide Head, GetOrCreateRelease, FindIdenticalTrack;
  }

  lemma HeadCanBeSuperseded(db: Db, target: int, track: TrackRow)
    requires Sound(db) && Eligible(db, target)
    requires track.releaseId == db.tracks[target].releaseId && track.lang == db.tracks[target].lang &&
             track.releaseId in db.releases
    ensures SupersedeTrack(db, target, track).Success? && SupersedeTrack(db, target, track).value.1 == db.nextTrack
  {
    HeadIsHead(db, db.tracks[target].root);
    HeadByRevision(db, target);
    NoLiveSuccessorOfHead(db, target);
    hide Head, IsHead, AllSound, DistinctRevisions, IndexHolds, MaxRevision, Superseded;
  }

  lemma NoLiveSuccessorOfHead(db: Db, target: int)
    requires Sound(db) && target in db.tracks && db.tracks[target].Live() && IsHead(db, db.tracks[target].root, target)
    ensures !Superseded(db, target)
  {
    forall t | t in db.tracks && db.tracks[t].Live() ensures db.tracks[t].supersedes != Some(target) {
      assert SoundTrack(db, t) && InChain(db, db.tracks[t].root, true, t);
    }
  }

  // -- Whole runs --------------------------------------------------------------

  datatype State = State(db: Db, pending: seq<Todo>)

  const START := State(EMPTY, [])

  datatype Event =
    | Submit(req: Request)
    | Finish(i: nat)
    | Withdraw(id: int, at: int)
    | Restore(id: int)
    | TakeDown(releaseId: int, at: int)
    | BringBack(releaseId: int)
    | Lock(id: int, locked: bool)
    | Relabel(id: int, kind: string, kindLabel: Option<string>)

  function Next(s: State, e: Event, diverge: Divergence): State {
    match e
    case Submit(req) =>
      var (db, todo) := Prepare(s.db, req, diverge);
      State(db, if todo.Nothing? then s.pending else s.pending + [todo])
    case Finish(i) =>
      if i < |s.pending| then State(Commit(s.db, s.pending[i]).0, s.pending[..i] + s.pending[i + 1..]) else s
    case Withdraw(id, at) => s.(db := WithdrawTrack(s.db, id, at))
    case Restore(id) => s.(db := RestoreTrack(s.db, id))
    case TakeDown(releaseId, at) => s.(db := WithdrawRelease(s.db, releaseId, at))
    case BringBack(releaseId) => s.(db := RestoreRelease(s.db, releaseId))
    case Lock(id, locked) => s.(db := LockTrack(s.db, id, locked))
    case Relabel(id, kind, kindLabel) => s.(db := SetKind(s.db, id, kind, kindLabel))
  }

  function Run(s: State, events: seq<Event>, diverge: Divergence): State
    decreases events
  {
    if events == [] then s else Run(Next(s, events[0], diverge), events[1..], diverge)
  }

  ghost predicate Inv(s: State) {
    Sound(s.db) && forall i :: 0 <= i < |s.pending| ==> Checked(s.db, s.pending[i])
  }

  lemma FlagsGrow(before: Db, after: Db)
    requires OnlyFlags(before, after) && SameReleases(before, after)
    ensures Grows(before, after)
  {
  }

  lemma ModerationKeepsSound(s: State, e: Event, diverge: Divergence)
    requires Sound(s.db) && !e.Submit? && !e.Finish?
    ensures Sound(Next(s, e, diverge).db) && Grows(s.db, Next(s, e, diverge).db) &&
            OnlyFlags(s.db, Next(s, e, diverge).db)
  {
    hide Sound;
    match e {
      case Withdraw(id, at) => WithdrawKeepsSound(s.db, id, at);
      case Restore(id) => RestoreKeepsSound(s.db, id);
      case TakeDown(releaseId, at) => WithdrawReleaseKeepsSound(s.db, releaseId, at);
      case BringBack(releaseId) => RestoreReleaseKeepsSound(s.db, releaseId);
      case Lock(id, locked) => LockKeepsSound(s.db, id, locked);
      case Relabel(id, kind, kindLabel) => SetKindKeepsSound(s.db, id, kind, kindLabel);
    }
    FlagsGrow(s.db, Next(s, e, diverge).db);
  }

  /** What moderation does to the row it is about, and that requests under way go on. */
  lemma ModerationTakesEffect(s: State, e: Event, diverge: Divergence, t: int)
    requires t in s.db.tracks && !e.Submit? && !e.Finish?
    ensures var s' := Next(s, e, diverge);
            && s'.pending == s.pending && s'.db.tracks.Keys == s.db.tracks.Keys
            && (e.Withdraw? && e.id == t ==> s'.db.tracks[t] == s.db.tracks[t].(withdrawn := Some(e.at)))
            && (e.Lock? && e.id == t ==> s'.db.tracks[t] == s.db.tracks[t].(locked := e.locked))
            && (e.Relabel? && e.id == t ==>
                  s'.db.tracks[t] == s.db.tracks[t].(kind := e.kind, kindLabel := e.kindLabel))
            && (e == Restore(t) ==> s'.db.tracks[t].withdrawn.None? || Replaced(s.db, t))
            && (e.TakeDown? && e.releaseId == s.db.tracks[t].releaseId && e.releaseId in s.db.releases ==>
                  s'.db.tracks[t].withdrawn.Some? && s'.db.releases[e.releaseId].withdrawn == Some(e.at))
  {
    assert e == Restore(t) && !Replaced(s.db, t) && s.db.tracks[t].withdrawn.Some? ==>
        forall u :: u in s.db.tracks && u != t && s.db.tracks[t].supersedes.Some? ==> !IsRival(s.db, t, u);
    hide IndexHolds;
  }

  lemma NextKeepsInv(s: State, e: Event, diverge: Divergence)
    requires Inv(s)
    ensures Inv(Next(s, e, diverge)) && Grows(s.db, Next(s, e, diverge).db)
  {
    hide Sound;
    var s' := Next(s, e, diverge);
    match e {
      case Submit(req) => PrepareKeepsSound(s.db, req, diverge);
      case Finish(i) => if i < |s.pending| { CommitKeepsSound(s.db, s.pending[i]); }
      case _ => ModerationKeepsSound(s, e, diverge);
    }
    hide Grows, Commit;
    forall i | 0 <= i < |s.pending| ensures Checked(s'.db, s.pending[i]) {
      CheckedStays(s.db, s'.db, s.pending[i]);
    }
    hide Checked;
  }

  /** Over every run of uploads, revisions, takedowns, restores, locks and relabelling, with
      requests overlapping in any way, chains stay sound, and no row is lost or rewritten. */
  lemma {:induction false} ChainsStaySound(s: State, events: seq<Event>, diverge: Divergence)
    requires Inv(s)
    ensures Inv(Run(s, events, diverge)) && Grows(s.db, Run(s, events, diverge).db)
    decreases events
  {
    if events != [] {
      NextKeepsInv(s, events[0], diverge);
      ChainsStaySound(Next(s, events[0], diverge), events[1..], diverge);
      GrowsOn(s.db, Next(s, events[0], diverge).db, Run(s, events, diverge).db);
    }
    hide Inv, Grows, Next;
  }

  lemma StartIsSound()
    ensures Inv(START)
  {
  }

  /** In particular, over every run of a node that starts empty. */
  lemma ReachableChainsAreSound(events: seq<Event>, diverge: Divergence)
    ensures Inv(Run(START, events, diverge))
  {
    StartIsSound();
    ChainsStaySound(START, events, diverge);
  }

  lemma {:induction false} RunInTwo(s: State, a: seq<Event>, b: seq<Event>, diverge: Divergence)
    ensures Run(s, a + b, diverge) == Run(Run(s, a, diverge), b, diverge)
    decreases a
  {
    hide Next;
    if a == [] {
      assert a + b == b;
    } else {
      assert (a + b)[0] == a[0] && (a + b)[1..] == a[1..] + b;
      RunInTwo(Next(s, a[0], diverge), a[1..], b, diverge);
    }
  }

  lemma RunThen(s: State, events: seq<Event>, e: Event, diverge: Divergence)
    ensures Run(s, events + [e], diverge) == Next(Run(s, events, diverge), e, diverge)
  {
    RunInTwo(s, events, [e], diverge);
    assert [e][1..] == [];
    hide Next;
  }

  /** `t` comes from `a` by zero or more revisions. */
  ghost predicate Descends(db: Db, t: int, a: int)
    requires AllSound(db)
    decreases t
  {
    t in db.tracks &&
    (t == a ||
     (assert SoundTrack(db, t);
      t > 0 && db.tracks[t].supersedes.Some? && Descends(db, db.tracks[t].supersedes.value, a)))
  }

  /** In every reachable state, whatever a machine-made track was revised from is machine-made, for
      the same release and language and in the same chain, with a lower revision. */
  lemma {:induction false} NoHumanAncestor(db: Db, t: int, a: int)
    requires AllSound(db) && Descends(db, t, a)
    ensures a in db.tracks
    ensures db.tracks[t].generated ==> db.tracks[a].generated
    ensures db.tracks[a].releaseId == db.tracks[t].releaseId && db.tracks[a].lang == db.tracks[t].lang
    ensures db.tracks[a].root == db.tracks[t].root && (t != a ==> db.tracks[a].revision < db.tracks[t].revision)
    decreases t
  {
    if t != a {
      assert SoundTrack(db, t);
      NoHumanAncestor(db, db.tracks[t].supersedes.value, a);
    }
  }
}
