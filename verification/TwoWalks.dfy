/** A dump's two walks need not see the same tables, since the node serves on between them. What the
    importer does with a dump whose tracks run ahead of its releases.
 */
module TwoWalks {
  import opened Wrappers
  import opened Catalogue
  import opened Uploads
  import opened Twins
  import opened Dumps
  import opened Imports
  import opened Mirroring

  /** The first track of the dump whose release is not in it. */
  lemma FirstUnseen(first: Db, second: Db) returns (n: nat)
    requires WellKept(first) && WellKept(second) && !WalksAgree(first, second) && Listed(second, AllTracks(second))
    ensures n < |AllTracks(second)| && !Seen(second, AllReleases(first), AllTracks(second), n)
    ensures forall i: nat :: i < n ==> Seen(second, AllReleases(first), AllTracks(second), i)
  {
    var t :| VisibleTrack(second, t) && !VisibleRelease(first, second.tracks[t].releaseId);
    AllListed(second);
    hide AllReleases, AllTracks, VisibleTrack, VisibleRelease, Seen;
    var m: nat :| m < |AllTracks(second)| && AllTracks(second)[m] == t;
    AgreeingIsSeen(first, second, m);
    n := 0;
    while Seen(second, AllReleases(first), AllTracks(second), n)
      invariant n <= m && forall i: nat :: i < n ==> Seen(second, AllReleases(first), AllTracks(second), i)
      decreases m - n
    {
      n := n + 1;
    }
  }

  lemma UnseenStops(first: Db, rids: seq<int>, s: Pass, t: TrackLine, render: Render)
    requires ReleasesListed(first, rids) && ReleasesCopied(first, rids, s, |rids|) && t.releaseId !in rids
    ensures LineStep(s, OfTrack(t), render) == Failure(UnseenRelease)
  {
    assert rids[..|rids|] == rids;
  }

  lemma DisagreeingStops(first: Db, second: Db, render: Render)
    requires ReleasesExportable(first) && TracksExportable(second, render) && !WalksAgree(first, second)
    ensures Import(Begin(EMPTY), Dump(first, second), render).1 == Some(UnseenRelease)
  {
    hide AllReleases, AllTracks, TracksExportable, ReleasesCopied, TracksCopied, Import, Dump, NoTracksYet, Ascending,
         Seen, LineStep, ParseOshash, WalksAgree;
    var s := ReleasesIn(first, second, render);
    var rids, ids, lines := AllReleases(first), AllTracks(second), TrackLines(second, AllTracks(second));
    ExportableIsKept(second, render);
    var n := FirstUnseen(first, second);
    CopyTracks(first, second, render, rids, s, n);
    ImportOneMore(s, lines, n, render);
    var t := TrackLineOf(ids[n], second.tracks[ids[n]]);
    NotSeen(second, rids, ids, n);
    UnseenStops(first, rids, Import(s, lines[..n], render).0, t, render);
  }

  lemma ExportableIsKept(src: Db, render: Render)
    requires TracksExportable(src, render)
    ensures WellKept(src)
  {
  }

  lemma NotSeen(src: Db, rids: seq<int>, ids: seq<int>, j: nat)
    requires Listed(src, ids) && j < |ids| && !Seen(src, rids, ids, j)
    ensures TrackLineOf(ids[j], src.tracks[ids[j]]).releaseId !in rids
  {
  }

  /** A dump is imported to its end exactly when everything the second walk saw is of a release the
      first walk saw; otherwise the importer stops at a track whose release it has not been shown. */
  lemma DumpIsImportedIff(first: Db, second: Db, render: Render)
    requires ReleasesExportable(first) && TracksExportable(second, render)
    ensures Import(Begin(EMPTY), Dump(first, second), render).1 ==
            if WalksAgree(first, second) then None else Some(UnseenRelease)
  {
    hide *;
    if WalksAgree(first, second) {
      WalksAreCopied(first, second, render);
    } else {
      DisagreeingStops(first, second, render);
    }
  }

  // -- Whatever the tracks --------------------------------------------------------------

  ghost predicate OnlyTracks(lines: seq<Line>) {
    forall i :: 0 <= i < |lines| ==> lines[i].OfTrack?
  }

  /** Some line is of a release the importer was not shown. */
  predicate AnyUnseen(releaseIds: map<int, int>, lines: seq<Line>) {
    exists i :: 0 <= i < |lines| && lines[i].OfTrack? && lines[i].track.releaseId !in releaseIds
  }

  lemma {:induction false} TrackPassStops(s: Pass, lines: seq<Line>, render: Render)
    requires OnlyTracks(lines)
    ensures var stop := Import(s, lines, render).1;
            && (stop == Some(UnseenRelease) ==> AnyUnseen(s.releaseIds, lines))
            && (AnyUnseen(s.releaseIds, lines) ==> stop in {Some(UnseenRelease), Some(StoreRefused)})
            && stop in {None, Some(UnseenRelease), Some(StoreRefused)}
    decreases lines
  {
    if lines != [] {
      var t, rest := lines[0].track, lines[1..];
      TrackLineStops(s, t, render);
      hide TrackStep;
      assert forall i :: 0 < i < |lines| ==> rest[i - 1] == lines[i];
      if TrackStep(s, t, render).Success? {
        TrackPassStops(TrackStep(s, t, render).value, rest, render);
      }
    }
  }

  lemma TrackLineStops(s: Pass, t: TrackLine, render: Render)
    ensures var r := TrackStep(s, t, render);
            && (r.Success? ==> t.releaseId in s.releaseIds && r.value.releaseIds == s.releaseIds)
            && (r.Failure? ==> r.error == if t.releaseId in s.releaseIds then StoreRefused else UnseenRelease)
  {
    hide FindIdenticalTrack, CreateTrack, Relink;
  }

  /** Whatever texts and chains a dump holds, an unseen release is to blame only if the walks disagree,
      and if they disagree the import never reaches the end. */
  lemma DisagreeingIsNeverImported(first: Db, second: Db, render: Render)
    requires ReleasesExportable(first) && WellKept(second)
    ensures var stop := Import(Begin(EMPTY), Dump(first, second), render).1;
            && (stop == Some(UnseenRelease) ==> !WalksAgree(first, second))
            && (!WalksAgree(first, second) ==> stop in {Some(UnseenRelease), Some(StoreRefused)})
  {
    hide AllReleases, AllTracks, Import, Dump, NoTracksYet, ParseOshash, Place;
    var s := ReleasesIn(first, second, render);
    var rids, ids, lines := AllReleases(first), AllTracks(second), TrackLines(second, AllTracks(second));
    TrackPassStops(s, lines, render);
    if WalksAgree(first, second) {
      Lists(second);
      hide Ascending;
      forall j: nat | j < |ids| ensures second.tracks[ids[j]].releaseId in s.releaseIds {
        AgreeingIsSeen(first, second, j);
        SeenIsKnown(first, rids, s, second.tracks[ids[j]].releaseId);
      }
    } else {
      var n := FirstUnseen(first, second);
      assert rids[..|rids|] == rids;
      assert lines[n].track.releaseId !in s.releaseIds;
    }
  }

  lemma SeenIsKnown(first: Db, rids: seq<int>, s: Pass, r: int)
    requires ReleasesListed(first, rids) && ReleasesCopied(first, rids, s, |rids|) && r in rids
    ensures r in s.releaseIds
  {
  }

  // -- An upload between the walks ----------------------------------------------------------

  lemma NewFileIsCreated(db: Db, req: Request, diverge: Divergence)
    requires WellKept(db) && req.supersedes == 0 && forall r :: r in db.releases ==> db.releases[r].oshash != req.oshash
    ensures var (db', todo) := Prepare(db, req, diverge);
            && todo == Create(NewTrack(req, db.nextRelease), "")
            && db' == db.(releases := db.releases[db.nextRelease :=
               ReleaseRow(req.oshash, req.phash, req.durationMs, None)],
                          nextRelease := db.nextRelease + 1)
  {
    GetOrCreateReleaseFinds(db, req.oshash, req.phash, req.durationMs);
    var (db1, r) := GetOrCreateRelease(db, req.oshash, req.phash, req.durationMs);
    assert r == db.nextRelease;
    hide GetOrCreateRelease, Propose;
    assert forall t :: t in db.tracks ==> db.tracks[t].releaseId != r;
    assert FindIdenticalTrack(db1, r, req.lang, req.body) == 0;
  }

  /** The first upload of a file, between the walks, makes the dump one no importer takes. */
  lemma UploadBetweenWalks(s: State, req: Request, diverge: Divergence, render: Render)
    requires Inv(s) && TwinFree(s) && s.pending == [] && ReleasesExportable(s.db)
    requires req.supersedes == 0 && forall r :: r in s.db.releases ==> s.db.releases[r].oshash != req.oshash
    requires render(req.body) == Some(req.body)
    requires forall t :: t in s.db.tracks ==> render(s.db.tracks[t].body) == Some(s.db.tracks[t].body)
    ensures var second := Run(s, [Submit(req), Finish(0)], diverge).db;
            Import(Begin(EMPTY), Dump(s.db, second), render).1 == Some(UnseenRelease)
  {
    var events := [Submit(req), Finish(0)];
    var second := Run(s, events, diverge).db;
    AfterTheUpload(s, req, diverge);
    CarefulUpload(s, req, diverge);
    CarefulRunsStayTwinFree(s, events, diverge);
    hide Run, ReleasesExportable, Import, Dump, AllSound, DistinctRevisions, IndexHolds, NoTwins, Careful;
    SoundNodesExport(second, render);
    assert VisibleTrack(second, s.db.nextTrack) && !VisibleRelease(s.db, s.db.nextRelease);
    DumpIsImportedIff(s.db, second, render);
  }

  /** So the first upload of all, to a node still empty at the first walk. */
  lemma FirstUploadBetweenWalks(req: Request, diverge: Divergence, render: Render)
    requires req.supersedes == 0 && render(req.body) == Some(req.body)
    ensures var second := Run(START, [Submit(req), Finish(0)], diverge).db;
            Import(Begin(EMPTY), Dump(EMPTY, second), render).1 == Some(UnseenRelease)
  {
    StartIsSound();
    assert ReleasesExportable(EMPTY) && TwinFree(START);
    UploadBetweenWalks(START, req, diverge, render);
    hide *;
  }

  lemma CarefulUpload(s: State, req: Request, diverge: Divergence)
    requires s.pending == []
    ensures Careful(s, [Submit(req), Finish(0)], diverge)
  {
    var events := [Submit(req), Finish(0)];
    assert events[1..] == [Finish(0)] && [Finish(0)][1..] == [];
    assert !Clashes(s, req) by { hide GetOrCreateRelease; }
    hide Clashes, Next, Prepare;
    var s' := Next(s, Submit(req), diverge);
    assert Careful(Next(s', Finish(0), diverge), [Finish(0)][1..], diverge);
    assert Careful(s', [Finish(0)], diverge);
  }

  lemma AfterTheUpload(s: State, req: Request, diverge: Divergence)
    requires Inv(s) && s.pending == [] && req.supersedes == 0
    requires forall r :: r in s.db.releases ==> s.db.releases[r].oshash != req.oshash
    ensures var second := Run(s, [Submit(req), Finish(0)], diverge).db;
            && s.db.nextRelease !in s.db.releases && VisibleRelease(second, s.db.nextRelease)
            && s.db.nextTrack !in s.db.tracks
            && second.tracks == s.db.tracks[s.db.nextTrack :=
               NewTrack(req, s.db.nextRelease).(root := s.db.nextTrack, revision := 1)]
  {
    NewFileIsCreated(s.db, req, diverge);
    PrepareKeepsSound(s.db, req, diverge);
    var (db, todo) := Prepare(s.db, req, diverge);
    CreateKeepsSound(db, todo.track);
    RunThen(s, [], Submit(req), diverge);
    RunThen(s, [Submit(req)], Finish(0), diverge);
    RunNothing(s, [], diverge);
    assert [] + [Submit(req)] == [Submit(req)] && [Submit(req)] + [Finish(0)] == [Submit(req), Finish(0)];
    hide Run, Prepare, CreateTrack, AllSound, DistinctRevisions, IndexHolds;
  }
}
