/** A revision whose parent comes back after it was mirrored: the parent arrives, the edge does not. */
module LateParent {
  import opened Wrappers
  import opened Catalogue
  import opened Uploads
  import opened Twins
  import opened Dumps
  import opened Imports
  import opened Mirroring
  import opened MirroredChains
  import opened NewerLines
  import opened NewerDumps
  import opened Histories

  /** The second of three revisions is restored. */
  lemma RestoringTheSecond(a: Db, diverge: Divergence)
    requires a == Revisions(3, {2})
    ensures Run(State(a, []), [Restore(2)], diverge).db == Revisions(3, {})
  {
    var b := Revisions(3, {});
    RunThen(State(a, []), [], Restore(2), diverge);
    RunNothing(State(a, []), [], diverge);
    assert [] + [Restore(2)] == [Restore(2)];
    assert !Superseded(a, 1);
    var d := RestoreTrack(a, 2);
    forall t | t in b.tracks ensures t in d.tracks && d.tracks[t] == b.tracks[t] {
    }
    assert d.tracks == b.tracks;
    hide Run;
  }

  lemma BothAreSuccessive(a: Db, diverge: Divergence)
    requires a == Revisions(3, {2})
    ensures Successive(a, Run(State(a, []), [Restore(2)], diverge).db, Verbatim)
  {
    RestoringTheSecond(a, diverge);
    RevisionsAreMirrorable(3, {2});
    RevisionsAreMirrorable(3, {});
    RevisionsSayDifferent(3, {});
    hide Run, Revisions, Sound, NoTwins, Exportable, Successive, Listed;
    RunsAreSuccessive(State(a, []), [Restore(2)], diverge, Verbatim);
  }

  /** Of two dumps of three revisions, the first without the second revision. */
  predicate MissingTheSecond(b: Db, was: seq<int>, ids: seq<int>) {
    && b.tracks.Keys == {1, 2, 3} && b.tracks[1].supersedes.None?
    && b.tracks[2].supersedes == Some(1) && b.tracks[3].supersedes == Some(2)
    && 1 in was && 2 !in was && 3 in was && (forall y :: y in was ==> y in {1, 3})
    && 1 in ids && 2 in ids && 3 in ids
  }

  lemma FirstMissesIt(a: Db, b: Db)
    requires a == Revisions(3, {2}) && b == Revisions(3, {})
    ensures MissingTheSecond(b, AllTracks(a), AllTracks(b))
  {
    hide AllTracks, Revisions;
    ThreeRevisions(b);
    RevisionsDumped(3, {2});
    RevisionsDumped(3, {});
  }

  lemma ThreeRevisions(b: Db)
    requires b == Revisions(3, {})
    ensures b.tracks.Keys == {1, 2, 3} && b.tracks[1].supersedes.None?
    ensures b.tracks[2].supersedes == Some(1) && b.tracks[3].supersedes == Some(2)
  {
    assert forall i :: i in b.tracks <==> i in {1, 2, 3};
  }

  lemma NoneIsARival(b: Db, was: seq<int>, ids: seq<int>, y: int)
    requires MissingTheSecond(b, was, ids) && y in b.tracks
    ensures !Rivals(b, was, ids, y)
  {
    assert forall i :: 0 <= i < |was| ==> was[i] in was;
  }

  lemma SecondAndThird(d: Db, b: Db, was: seq<int>, ids: seq<int>, origin: map<int, int>)
    returns (second: int, third: int)
    requires MissingTheSecond(b, was, ids) && Rejoined(d, b, was, ids, |ids|, origin)
    ensures second in origin && origin[second] == 2 && third in origin && origin[third] == 3
    ensures third in d.tracks && d.tracks[third].supersedes.None?
  {
    hide Origins, HangsFrom;
    assert ids[..|ids|] == ids;
    assert Held(origin, 2) && Held(origin, 3);
    second :| second in origin && origin[second] == 2;
    third :| third in origin && origin[third] == 3;
    assert RowRejoined(d, b, was, ids, origin, third);
  }

  /** Both dumps were imported to the end, rows for the second and the third revision are there, the
      third supersedes the second at the node, and its row here supersedes nothing. */
  lemma LateParentGetsNoEdge(a: Db, diverge: Divergence) returns (origin: map<int, int>, second: int, third: int)
    requires a == Revisions(3, {2})
    ensures var b := Run(State(a, []), [Restore(2)], diverge).db;
            var d := Refreshed(a, b, Verbatim).0.db;
            && Successive(a, b, Verbatim) && Refreshed(a, b, Verbatim).1.None? && Origins(d, b, origin)
            && second in origin && origin[second] == 2 && third in origin && origin[third] == 3
            && 3 in b.tracks && b.tracks[3].supersedes == Some(2)
            && third in d.tracks && d.tracks[third].supersedes.None?
  {
    hide Run, Revisions, AllTracks, Successive, Refreshed, Origins, Rejoined, Rivals, VisibleTrack;
    var b := Run(State(a, []), [Restore(2)], diverge).db;
    RestoringTheSecond(a, diverge);
    BothAreSuccessive(a, diverge);
    FirstMissesIt(a, b);
    var was, ids := AllTracks(a), AllTracks(b);
    NewerDumpIsTakenIff(a, b, Verbatim);
    forall y | VisibleTrack(b, y) ensures y in b.tracks && !Rivals(b, was, ids, y) {
      ItIsThere(b, y);
      NoneIsARival(b, was, ids, y);
    }
    var n;
    origin, n := LaterRevisionsRejoin(a, b, Verbatim);
    RejoinedHasOrigins(Refreshed(a, b, Verbatim).0.db, b, was, ids, n, origin);
    second, third := SecondAndThird(Refreshed(a, b, Verbatim).0.db, b, was, ids, origin);
  }

  lemma RejoinedHasOrigins(d: Db, b: Db, was: seq<int>, ids: seq<int>, n: nat, origin: map<int, int>)
    requires n <= |ids| && Rejoined(d, b, was, ids, n, origin)
    ensures Origins(d, b, origin)
  {
  }
}
