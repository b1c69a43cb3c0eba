/** The tables uploads, moderation, dump and import share, with the store operations on them
    (internal/store/release.go, internal/store/subtitle_track.go). An operation is one SQL
    transaction, so it is a function from tables to tables; a violated unique index or foreign key
    fails it and changes nothing.
 */
module Catalogue {
  import opened Wrappers
  import opened PHashing

  /** `withdrawn` holds the time of the takedown. */
  datatype ReleaseRow = ReleaseRow(oshash: string, phash: Option<PHash>, durationMs: int, withdrawn: Option<int>)

  datatype TrackRow = TrackRow(
    releaseId: int, lang: string, body: string, generated: bool, declared: bool, uploader: Option<int>,
    kind: string, kindLabel: Option<string>, authorship: string, withdrawn: Option<int>,
    root: int, revision: int, supersedes: Option<int>, locked: bool)
  {
    predicate Live() {
      withdrawn.None?
    }
  }

  datatype Db = Db(releases: map<int, ReleaseRow>, tracks: map<int, TrackRow>, nextRelease: int, nextTrack: int)

  const EMPTY := Db(map[], map[], 1, 1)

  /** Ids are handed out in order from 1, an oshash names one release, a track has a release. */
  ghost predicate WellKept(db: Db) {
    && db.nextRelease >= 1 && db.nextTrack >= 1
    && (forall r :: r in db.releases ==> 1 <= r < db.nextRelease)
    && (forall t :: t in db.tracks ==> 1 <= t < db.nextTrack && db.tracks[t].releaseId in db.releases)
    && (forall r, q :: r in db.releases && q in db.releases && db.releases[r].oshash == db.releases[q].oshash ==>
       r == q)
  }

  // -- Releases ----------------------------------------------------------------

  /** The release of an oshash among ids from `from` on, or 0. */
  function ReleaseFrom(db: Db, oshash: string, from: int): (r: int)
    ensures r != 0 ==> r in db.releases && db.releases[r].oshash == oshash
    ensures r == 0 && from >= 1 ==> forall q :: from <= q < db.nextRelease && q in db.releases ==>
            db.releases[q].oshash != oshash
    decreases db.nextRelease - from
  {
    if from >= db.nextRelease then 0
    else if from in db.releases && db.releases[from].oshash == oshash then from
    else ReleaseFrom(db, oshash, from + 1)
  }

  /** INSERT ... ON CONFLICT (oshash) DO NOTHING, then read the row back, withdrawn or not. */
  function GetOrCreateRelease(db: Db, oshash: string, phash: Option<PHash>, durationMs: int): (Db, int) {
    var found := ReleaseFrom(db, oshash, 1);
    if found != 0 then (db, found)
    else
      (db.(releases := db.releases[db.nextRelease := ReleaseRow(oshash, phash, durationMs, None)],
           nextRelease := db.nextRelease + 1), db.nextRelease)
  }

  lemma GetOrCreateReleaseFinds(db: Db, oshash: string, phash: Option<PHash>, durationMs: int)
    requires WellKept(db)
    ensures var (db', r) := GetOrCreateRelease(db, oshash, phash, durationMs);
            && WellKept(db') && db'.tracks == db.tracks && db'.nextTrack == db.nextTrack
            && r in db'.releases && db'.releases[r].oshash == oshash
            && (r in db.releases ==> db' == db)
            && (r !in db.releases ==> r == db.nextRelease && db'.nextRelease == r + 1
                                      && db'.releases == db.releases[r := ReleaseRow(oshash, phash, durationMs, None)])
            && ((exists q :: q in db.releases && db.releases[q].oshash == oshash) <==> r in db.releases)
  {
  }

  // -- Finding tracks ----------------------------------------------------------

  predicate Says(t: TrackRow, releaseId: int, lang: string, body: string) {
    t.releaseId == releaseId && t.lang == lang && t.body == body
  }

  /** The lowest id from `from` on of a track saying the same in the same language, or 0. */
  function IdenticalFrom(db: Db, releaseId: int, lang: string, body: string, from: int): (t: int)
    requires from >= 1
    ensures t != 0 ==> t in db.tracks && t >= from && Says(db.tracks[t], releaseId, lang, body)
    ensures forall u :: from <= u < (if t != 0 then t else db.nextTrack) && u in db.tracks ==>
            !Says(db.tracks[u], releaseId, lang, body)
    decreases db.nextTrack - from
  {
    if from >= db.nextTrack then 0
    else if from in db.tracks && Says(db.tracks[from], releaseId, lang, body) then from
    else IdenticalFrom(db, releaseId, lang, body, from + 1)
  }

  /** Withdrawn tracks count. */
  function FindIdenticalTrack(db: Db, releaseId: int, lang: string, body: string): int {
    IdenticalFrom(db, releaseId, lang, body, 1)
  }

  /** The highest revision in a chain, of its live rows or of all, among ids below `n`; 0 if none. */
  function MaxRevision(db: Db, root: int, liveOnly: bool, n: nat): (m: int)
    ensures forall t :: 0 <= t < n && InChain(db, root, liveOnly, t) ==> db.tracks[t].revision <= m
    ensures m >= 0
    ensures m > 0 ==> exists t :: 0 <= t < n && InChain(db, root, liveOnly, t) && db.tracks[t].revision == m
  {
    if n == 0 then 0
    else
      var m := MaxRevision(db, root, liveOnly, n - 1);
      if InChain(db, root, liveOnly, n - 1) && db.tracks[n - 1].revision > m then db.tracks[n - 1].revision else m
  }

  predicate InChain(db: Db, root: int, liveOnly: bool, t: int) {
    t in db.tracks && db.tracks[t].root == root && (liveOnly ==> db.tracks[t].Live())
  }

  // -- Creating and superseding --------------------------------------------------

  /** A live row already names `parent` as superseded: the partial unique index. */
  predicate Superseded(db: Db, parent: int) {
    exists t :: t in db.tracks && db.tracks[t].Live() && db.tracks[t].supersedes == Some(parent)
  }

  predicate MayInsert(db: Db, t: TrackRow) {
    && t.releaseId in db.releases
    && (t.supersedes.Some? ==> t.supersedes.value in db.tracks && !Superseded(db, t.supersedes.value))
  }

  function AddRow(db: Db, t: TrackRow): Db {
    db.(tracks := db.tracks[db.nextTrack := t], nextTrack := db.nextTrack + 1)
  }

  /** Root 0 starts a chain, whose root is the new row itself; revision 0 means 1. */
  function CreateTrack(db: Db, t: TrackRow): Option<(Db, int)> {
    var row := t.(root := if t.root == 0 then db.nextTrack else t.root,
                  revision := if t.revision == 0 then 1 else t.revision);
    if MayInsert(db, row) then Some((AddRow(db, row), db.nextTrack)) else None
  }

  datatype Refusal = NotFound | IsWithdrawn | IsLocked | NotHead | Mismatch | Conflict

  /** Checks and inserts in one transaction, under a lock on the parent. */
  function SupersedeTrack(db: Db, parentId: int, t: TrackRow): Result<(Db, int), Refusal> {
    if parentId !in db.tracks then Failure(NotFound)
    else
      var parent := db.tracks[parentId];
      if !parent.Live() then Failure(IsWithdrawn)
      else if parent.locked then Failure(IsLocked)
      else if db.nextTrack < 0 || parent.revision != MaxRevision(db, parent.root, true, db.nextTrack) then
          Failure(NotHead)
      else if t.releaseId != parent.releaseId || t.lang != parent.lang then Failure(Mismatch)
      else
        var row := t.(root := parent.root, revision := MaxRevision(db, parent.root, false, db.nextTrack) + 1,
                      supersedes := Some(parentId));
        if MayInsert(db, row) then Success((AddRow(db, row), db.nextTrack)) else Failure(Conflict)
  }

  // -- Moderation ------------------------------------------------------------------

  function WithTrack(db: Db, id: int, t: TrackRow): Db {
    db.(tracks := db.tracks[id := t])
  }

  function WithdrawTrack(db: Db, id: int, now: int): Db {
    if id in db.tracks then WithTrack(db, id, db.tracks[id].(withdrawn := Some(now))) else db
  }

  /** Restoring fails, like any update, if it would give a track a second live successor. */
  function RestoreTrack(db: Db, id: int): Db {
    if id !in db.tracks then db
    else
      var t := db.tracks[id];
      if !t.Live() && t.supersedes.Some? && Superseded(db, t.supersedes.value) then db
      else WithTrack(db, id, t.(withdrawn := None))
  }

  function LockTrack(db: Db, id: int, locked: bool): Db {
    if id in db.tracks then WithTrack(db, id, db.tracks[id].(locked := locked)) else db
  }

  /** Takes the release down and, with the same stamp, every track of it that is still up. */
  function WithdrawRelease(db: Db, id: int, now: int): Db {
    if id !in db.releases then db
    else
      db.(releases := db.releases[id := db.releases[id].(withdrawn := Some(now))],
          tracks := map t | t in db.tracks ::
            if db.tracks[t].releaseId == id && db.tracks[t].Live() then db.tracks[t].(withdrawn := Some(now))
            else db.tracks[t])
  }

  /** Brings back the release and the tracks that carry its stamp, or nothing at all. */
  function RestoreRelease(db: Db, id: int): Db {
    if id !in db.releases || db.releases[id].withdrawn.None? then db
    else
      if IndexHolds(Restored(db, id)) then Restored(db, id) else db
  }

  function Restored(db: Db, id: int): Db
    requires id in db.releases
  {
    var stamp := db.releases[id].withdrawn;
    db.(releases := db.releases[id := db.releases[id].(withdrawn := None)],
        tracks := map t | t in db.tracks ::
          if db.tracks[t].releaseId == id && db.tracks[t].withdrawn == stamp then db.tracks[t].(withdrawn := None)
          else db.tracks[t])
  }

  /** At most one live row supersedes any track. */
  predicate IndexHolds(db: Db) {
    forall t, u :: t in db.tracks && u in db.tracks && db.tracks[t].Live() && db.tracks[u].Live() ==>
      db.tracks[t].supersedes.Some? && db.tracks[t].supersedes == db.tracks[u].supersedes ==> t == u
  }

  /** UpdateSubtitleTrackKindAsModerator: no uploader check. */
  function SetKind(db: Db, id: int, kind: string, kindLabel: Option<string>): Db {
    if id in db.tracks then WithTrack(db, id, db.tracks[id].(kind := kind, kindLabel := kindLabel)) else db
  }

  /** No track of the release already carries this stamp. */
  predicate StampUnused(db: Db, id: int, stamp: int) {
    forall t :: t in db.tracks && db.tracks[t].releaseId == id ==> db.tracks[t].withdrawn != Some(stamp)
  }

  lemma CascadeIsUndone(db: Db, id: int, now: int)
    requires id in db.releases && db.releases[id].withdrawn.None? && StampUnused(db, id, now)
    ensures Restored(WithdrawRelease(db, id, now), id) == db
  {
    var down := WithdrawRelease(db, id, now);
    var up := Restored(down, id);
    forall t | t in db.tracks ensures up.tracks[t] == db.tracks[t] {
      assert down.tracks[t].releaseId == db.tracks[t].releaseId;
    }
    assert up.tracks == db.tracks;
    assert up.releases[id] == db.releases[id];
    assert up.releases == db.releases;
  }

  /** Taking a release down and bringing it back changes nothing, earlier takedowns of its tracks
      included, exactly when the release was up and no track of it already carried that very stamp. */
  lemma TakedownIsUndoneIff(db: Db, id: int, now: int)
    requires IndexHolds(db) && id in db.releases && db.releases[id].withdrawn != Some(now)
    ensures RestoreRelease(WithdrawRelease(db, id, now), id) == db <==>
            db.releases[id].withdrawn.None? && StampUnused(db, id, now)
  {
    var down := WithdrawRelease(db, id, now);
    assert down.releases[id].withdrawn == Some(now);
    if db.releases[id].withdrawn.None? && StampUnused(db, id, now) {
      CascadeIsUndone(db, id, now);
      hide WithdrawRelease, Restored, IndexHolds;
    } else if db.releases[id].withdrawn.None? {
      var t :| t in db.tracks && db.tracks[t].releaseId == id && db.tracks[t].withdrawn == Some(now);
      assert down.tracks[t] == db.tracks[t] && Restored(down, id).tracks[t].withdrawn == None;
      hide WithdrawRelease, Restored, IndexHolds;
    } else {
      assert Restored(down, id).releases[id].withdrawn == None;
      hide WithdrawRelease, Restored, IndexHolds;
    }
  }

  predicate NoneLive(db: Db, id: int) {
    forall t :: t in db.tracks && db.tracks[t].releaseId == id ==> !db.tracks[t].Live()
  }

  /** The second takedown stamps the release anew, but not the tracks the first one took down, so
      what bringing it back once restores is the release alone. */
  lemma SecondTakedownHidesTheFirst(db: Db, id: int, first: int, second: int)
    requires IndexHolds(db) && id in db.releases && db.releases[id].withdrawn.None?
    requires StampUnused(db, id, second) && first != second
    ensures var down := WithdrawRelease(db, id, first);
            RestoreRelease(WithdrawRelease(down, id, second), id) == db.(tracks := down.tracks)
  {
    var down := WithdrawRelease(db, id, first);
    var again := WithdrawRelease(down, id, second);
    var up := Restored(again, id);
    forall t | t in db.tracks ensures up.tracks[t] == down.tracks[t] {
      assert again.tracks[t] == down.tracks[t];
      hide IndexHolds;
    }
    assert up.tracks == down.tracks;
    assert up.releases == db.releases;
    assert IndexHolds(up) by {
      FewerLive(db, up);
    }
    hide Restored, IndexHolds;
  }

  lemma FewerLive(before: Db, after: Db)
    requires IndexHolds(before) && after.tracks.Keys == before.tracks.Keys
    requires forall t :: t in before.tracks ==> after.tracks[t].supersedes == before.tracks[t].supersedes
    requires forall t :: t in before.tracks && after.tracks[t].Live() ==> before.tracks[t].Live()
    ensures IndexHolds(after)
  {
  }

  /** A track already down with the stamp of the second takedown comes up with the release. */
  lemma StampedTrackComesUp(db: Db, id: int, first: int, second: int, t: int)
    requires id in db.releases && db.releases[id].withdrawn.None?
    requires t in db.tracks && db.tracks[t].releaseId == id && db.tracks[t].withdrawn == Some(second)
    ensures RestoreRelease(WithdrawRelease(WithdrawRelease(db, id, first), id, second), id) != db
  {
    var again := WithdrawRelease(WithdrawRelease(db, id, first), id, second);
    assert again.releases[id].withdrawn == Some(second) && again.tracks[t] == db.tracks[t];
    assert Restored(again, id).tracks[t].withdrawn.None?;
    hide IndexHolds, WithdrawRelease, Restored;
  }

  /** Taken down twice, a release comes back as it was by restoring it once exactly when no track of it
      already carried the second stamp, and both takedowns bore one stamp or it had nothing up: else
      every track that was up stays down. */
  lemma TwoTakedownsAreUndoneIff(db: Db, id: int, first: int, second: int)
    requires IndexHolds(db) && id in db.releases && db.releases[id].withdrawn.None?
    ensures RestoreRelease(WithdrawRelease(WithdrawRelease(db, id, first), id, second), id) == db
            <==> StampUnused(db, id, second) && (first == second || NoneLive(db, id))
  {
    var down := WithdrawRelease(db, id, first);
    if !StampUnused(db, id, second) {
      var t :| t in db.tracks && db.tracks[t].releaseId == id && db.tracks[t].withdrawn == Some(second);
      hide WithdrawRelease, RestoreRelease, IndexHolds;
      StampedTrackComesUp(db, id, first, second, t);
    } else if first == second {
      assert WithdrawRelease(down, id, second).tracks == down.tracks;
      assert WithdrawRelease(down, id, second).releases == down.releases;
      TakedownIsUndoneIff(db, id, first);
    } else {
      SecondTakedownHidesTheFirst(db, id, first, second);
      hide RestoreRelease, IndexHolds;
      if NoneLive(db, id) {
        forall t | t in db.tracks ensures down.tracks[t] == db.tracks[t] {
          assert db.tracks[t].releaseId == id ==> !db.tracks[t].Live();
        }
        assert down.tracks == db.tracks;
      } else {
        var t :| t in db.tracks && db.tracks[t].releaseId == id && db.tracks[t].Live();
        assert !down.tracks[t].Live();
      }
    }
  }

  /** Taking a track down and bringing it back is the identity exactly when it was up and no other live row
      revises the same track, or it was down with that stamp and one does, so that it may not come back. */
  lemma TrackTakedownIsUndoneIff(db: Db, id: int, now: int)
    requires id in db.tracks
    ensures var t, down := db.tracks[id], WithdrawTrack(db, id, now);
            && down.tracks == db.tracks[id := t.(withdrawn := Some(now))] && down.releases == db.releases
            && (RestoreTrack(down, id) == db <==>
                if t.withdrawn.None? then !Replaced(db, id) else t.withdrawn == Some(now) && Replaced(db, id))
  {
    var t, down := db.tracks[id], WithdrawTrack(db, id, now);
    var up := t.(withdrawn := None);
    assert db.tracks[id := t.(withdrawn := Some(now))][id := up] == db.tracks[id := up];
    assert RestoreTrack(down, id).tracks[id] == if Replaced(db, id) then t.(withdrawn := Some(now)) else up by {
      if Replaced(db, id) {
        var u :| u in db.tracks && IsRival(db, id, u);
        assert u in down.tracks && down.tracks[u] == db.tracks[u];
      } else {
        assert t.supersedes.Some? ==> forall u :: u in db.tracks ==> !IsRival(db, id, u);
        assert forall u :: u in db.tracks && u != id ==> down.tracks[u] == db.tracks[u];
      }
    }
  }

  predicate IsRival(db: Db, id: int, u: int)
    requires id in db.tracks && u in db.tracks
  {
    u != id && db.tracks[u].withdrawn.None? && db.tracks[u].supersedes == db.tracks[id].supersedes
  }

  /** Another live row supersedes what this one supersedes. */
  predicate Replaced(db: Db, id: int)
    requires id in db.tracks
  {
    db.tracks[id].supersedes.Some? && exists u :: u in db.tracks && IsRival(db, id, u)
  }

  /** A locked track takes no revision, an unlocked one is as if it had never been locked. */
  lemma LockingHolds(db: Db, id: int, track: TrackRow)
    requires id in db.tracks
    ensures SupersedeTrack(LockTrack(db, id, true), id, track).Failure?
    ensures db.tracks[id].withdrawn.None? ==> SupersedeTrack(LockTrack(db, id, true), id, track) == Failure(IsLocked)
    ensures LockTrack(LockTrack(db, id, true), id, false) == LockTrack(db, id, false)
    ensures LockTrack(db, id, db.tracks[id].locked) == db
  {
    hide MaxRevision, MayInsert;
    var locked := db.tracks[id].(locked := true);
    assert db.tracks[id := locked][id := locked.(locked := false)] == db.tracks[id := locked.(locked := false)];
  }
}
