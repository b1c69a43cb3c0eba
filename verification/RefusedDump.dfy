/** A node's dump that no mirror of its earlier dump can import to the end. */
module RefusedDump {
  import opened Wrappers
  import opened Catalogue
  import opened Uploads
  import opened Twins
  import opened Dumps
  import opened Imports
  import opened Mirroring
  import opened MirroredChains
  import opened NewerLines
  import opened NewerDumps
  import opened Histories
  import Reimport

  /** The second revision is taken down and the first revised anew. */
  function Revising(req: Request): seq<Event> {
    [Withdraw(2, 0), Submit(req), Finish(0)]
  }

  predicate RevisesTheFirst(req: Request) {
    req.supersedes == 1 && req.oshash == OSHASH && req.lang == "en" && !req.generated && req.body == "aaa"
  }

  function Alike(stored: string, proposed: string): Verdict {
    Close
  }

  lemma TwoRevisions(a: Db)
    requires a == Revisions(2, {})
    ensures a.releases == map[1 := ReleaseRow(OSHASH, None, 0, None)] && a.nextTrack == 3
    ensures a.tracks == map[1 := Revision(1, false), 2 := Revision(2, false)]
  {
  }

  lemma FirstCanBeRevised(d: Db, req: Request)
    requires Sound(d) && RevisesTheFirst(req)
    requires d.releases == map[1 := ReleaseRow(OSHASH, None, 0, None)]
    requires d.tracks == map[1 := Revision(1, false), 2 := Revision(2, false).(withdrawn := Some(0))]
    ensures Prepare(d, req, Alike) == (d, Supersede(1, NewTrack(req, 1)))
  {
    SoundIsKept(d);
    Reimport.ReleaseIsFound(d, OSHASH, req.phash, req.durationMs, 1);
    HeadIsHead(d, 1);
    assert IsHead(d, 1, 1) by { hide Head; }
    BodiesDiffer();
    hide GetOrCreateRelease, Head, IsHead, AllSound, DistinctRevisions, IndexHolds, WellKept, Revision;
    assert d.tracks[1] == Revision(1, false);
    RevisionIs(1);
    RevisionIs(2);
    Reimport.FoundIsLowest(d, 1, "en", "aaa");
    hide IdenticalFrom;
  }

  lemma RevisionIs(i: nat)
    ensures var t := Revision(i, false);
            && t.releaseId == 1 && t.lang == "en" && |t.body| == i && t.Live() && !t.locked && !t.generated &&
               t.root == 1
            && t.supersedes == if i == 1 then None else Some(i - 1)
  {
  }

  lemma BodiesDiffer()
    ensures |"aaa"| == 3
  {
  }

  lemma RevisingRuns(s: State, req: Request)
    ensures Run(s, Revising(req), Alike) ==
            Next(Next(Next(s, Withdraw(2, 0), Alike), Submit(req), Alike), Finish(0), Alike)
  {
    hide Run, Next;
    RunThen(s, [], Withdraw(2, 0), Alike);
    RunThen(s, [Withdraw(2, 0)], Submit(req), Alike);
    RunThen(s, [Withdraw(2, 0), Submit(req)], Finish(0), Alike);
    RunNothing(s, [], Alike);
    assert [] + [Withdraw(2, 0)] == [Withdraw(2, 0)];
    assert [Withdraw(2, 0)] + [Submit(req)] == [Withdraw(2, 0), Submit(req)];
    assert [Withdraw(2, 0), Submit(req)] + [Finish(0)] == Revising(req);
  }

  lemma RevisedInTheEnd(a: Db, d: Db, req: Request)
    requires d == WithdrawTrack(a, 2, 0) && Sound(d) && Prepare(d, req, Alike) == (d, Supersede(1, NewTrack(req, 1)))
    ensures Run(State(a, []), Revising(req), Alike).db == Commit(d, Supersede(1, NewTrack(req, 1))).0
    ensures Commit(d, Supersede(1, NewTrack(req, 1))).1.Revised?
  {
    UndisturbedRevisionSucceeds(d, req, Alike);
    RevisingRuns(State(a, []), req);
    hide Run, Prepare, Sound, Commit, WithdrawTrack;
  }

  /** Afterwards the first and the third revision are up, and both later ones supersede the first. */
  lemma RevisedOnto(a: Db, req: Request)
    requires a == Revisions(2, {}) && RevisesTheFirst(req) && Sound(a)
    ensures var b := Run(State(a, []), Revising(req), Alike).db;
            && b.releases == a.releases && b.tracks.Keys == {1, 2, 3}
            && b.tracks[1].Live() && b.tracks[3].Live() && b.tracks[1].releaseId == 1 && b.tracks[3].releaseId == 1
            && b.tracks[2].supersedes == Some(1) && b.tracks[3].supersedes == Some(1) && !b.tracks[2].Live()
  {
    hide Run, Prepare, Sound, Revisions, Commit, Revising, Revision, IsHead, Checked, NewTrack, Extended;
    var d := WithdrawTrack(a, 2, 0);
    TwoRevisions(a);
    RevisionIs(1);
    RevisionIs(2);
    WithdrawKeepsSound(a, 2, 0);
    FirstCanBeRevised(d, req);
    RevisedInTheEnd(a, d, req);
    PrepareKeepsSound(d, req, Alike);
    RevisionExtendsTheHead(d, Supersede(1, NewTrack(req, 1)));
    CommitReply(d, 1, NewTrack(req, 1));
    ThirdOnFirst(d, Run(State(a, []), Revising(req), Alike).db, NewTrack(req, 1));
    NewTrackIsUp(req);
  }

  lemma CommitReply(d: Db, target: int, track: TrackRow)
    requires Commit(d, Supersede(target, track)).1.Revised?
    ensures Commit(d, Supersede(target, track)).1.id == d.nextTrack
    ensures d.nextTrack in Commit(d, Supersede(target, track)).0.tracks
    ensures Commit(d, Supersede(target, track)).0.tracks[d.nextTrack].releaseId == track.releaseId
  {
    hide MaxRevision, Head, MayInsert;
  }

  lemma ThirdOnFirst(d: Db, b: Db, track: TrackRow)
    requires d.tracks.Keys == {1, 2} && d.tracks[1].Live() && d.tracks[2].supersedes == Some(1) && !d.tracks[2].Live()
    requires Extended(d, 1, track, b, 3)
    ensures b.releases == d.releases && b.tracks.Keys == {1, 2, 3} && b.tracks[1] == d.tracks[1]
    ensures b.tracks[1].Live() && b.tracks[3].Live()
    ensures b.tracks[2].supersedes == Some(1) && b.tracks[3].supersedes == Some(1) && !b.tracks[2].Live()
  {
    hide IsHead;
  }

  lemma NewTrackIsUp(req: Request)
    ensures NewTrack(req, 1).releaseId == 1
  {
  }

  lemma RevisingIsSafe(a: Db, req: Request)
    requires a == Revisions(2, {})
    ensures Sound(a) && Exportable(a, Verbatim)
    ensures Inv(State(a, [])) && TwinFree(State(a, [])) && Careful(State(a, []), Revising(req), Alike)
  {
    hide Exportable, Sound, NoTwins, Next, Prepare, GetOrCreateRelease, Clashes;
    RevisionsAreMirrorable(2, {});
    RevisionsSayDifferent(2, {});
    var s := State(a, []);
    var s1 := Next(s, Withdraw(2, 0), Alike);
    var s2 := Next(s1, Submit(req), Alike);
    assert s1.pending == [] by { WithdrawLeavesPending(s, req); }
    NoClash(s1, req);
    var events := Revising(req);
    assert events[1..] == [Submit(req), Finish(0)] && [Submit(req), Finish(0)][1..] == [Finish(0)] &&
        [Finish(0)][1..] == [];
    assert Careful(s2, [Finish(0)], Alike) by { assert Careful(Next(s2, Finish(0), Alike), [Finish(0)][1..], Alike); }
    assert Careful(s1, [Submit(req), Finish(0)], Alike);
  }

  lemma WithdrawLeavesPending(s: State, req: Request)
    ensures Next(s, Withdraw(2, 0), Alike).pending == s.pending
  {
  }

  lemma NoClash(s: State, req: Request)
    requires s.pending == []
    ensures !Clashes(s, req)
  {
    hide GetOrCreateRelease;
  }

  lemma RefreshedAgain(a: Db, b: Db, render: Render)
    requires Exportable(a, render)
    ensures Import(Begin(Refreshed(a, b, render).0.db), Dump(b, b), render).1 == Refreshed(a, b, render).1
  {
    TakedownsStand(EMPTY, Dump(a, a), render);
    Reimport.ImportIsIdempotent(MirrorOf(a, render), Dump(b, b), render);
    hide Import, Dump, Extends;
  }

  /** A mirror of two revisions cannot be refreshed once the second was taken down and the first
      revised anew, however often the import is repeated. */
  lemma RevisedAnewIsRefused(a: Db, req: Request)
    requires a == Revisions(2, {}) && RevisesTheFirst(req)
    ensures var b := Run(State(a, []), Revising(req), Alike).db;
            && Successive(a, b, Verbatim) && Refreshed(a, b, Verbatim).1 == Some(StoreRefused)
            && Import(Begin(Refreshed(a, b, Verbatim).0.db), Dump(b, b), Verbatim).1 == Some(StoreRefused)
  {
    var b := Run(State(a, []), Revising(req), Alike).db;
    RevisingIsSafe(a, req);
    RevisedOnto(a, req);
    CarefulRunsStayTwinFree(State(a, []), Revising(req), Alike);
    TwoRevisions(a);
    OshashIsCanonical();
    RevisionsDumped(2, {});
    hide Run, Revising, Sound, NoTwins, Careful, AllTracks, Refreshed, Grows, TracksExportable, ParseOshash, Revisions;
    SoundNodesExport(b, Verbatim);
    RunsAreSuccessive(State(a, []), Revising(req), Alike, Verbatim);
    hide Successive, Inv;
    AllListed(b);
    assert VisibleTrack(b, 1) && VisibleTrack(b, 3);
    var i :| 0 <= i < |AllTracks(a)| && AllTracks(a)[i] == 2;
    assert Supersedes(b, AllTracks(a)[i], 1);
    SoundIsKept(b);
    hide Ascending, WellKept;
    assert Rivals(b, AllTracks(a), AllTracks(b), 3);
    NewerDumpIsTakenIff(a, b, Verbatim);
    RefreshedAgain(a, b, Verbatim);
  }
}
