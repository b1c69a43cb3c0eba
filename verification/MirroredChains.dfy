/** Revision chains in a mirror, and in a mirror of the mirror: when a chain arrives in one piece, and
    when it comes apart.
 */
module MirroredChains {
  import opened Wrappers
  import opened Catalogue
  import opened Uploads
  import opened Dumps
  import opened Imports
  import opened Mirroring
  import Lookups
  import Twins

  // -- Where a chain is rejoined ---------------------------------------------------

  /** The root of a chain is its oldest row and supersedes nothing. */
  lemma {:induction false} RootIsOldest(src: Db, t: int)
    requires WellKept(src) && AllSound(src) && t in src.tracks
    ensures var root := src.tracks[t].root;
            root in src.tracks && root <= t && src.tracks[root].root == root && src.tracks[root].supersedes.None?
    ensures src.tracks[t].supersedes.None? <==> src.tracks[t].root == t
    decreases t
  {
    assert SoundTrack(src, t);
    if src.tracks[t].supersedes.Some? {
      RootIsOldest(src, src.tracks[t].supersedes.value);
    }
    hide WellKept, AllSound;
  }

  ghost predicate Dumped(src: Db, ids: seq<int>) {
    WellKept(src) && AllSound(src) && Ascending(ids) && Listed(src, ids)
  }

  /** The parent's place, whether one looks among the tracks before or among all. */
  lemma ParentComesBefore(src: Db, ids: seq<int>, j: nat)
    requires Dumped(src, ids) && j < |ids|
    ensures src.tracks[ids[j]].supersedes.Some? ==>
              ParentPlace(src, ids, j) == Place(ids, src.tracks[ids[j]].supersedes.value)
    ensures src.tracks[ids[j]].supersedes.Some? ==> src.tracks[ids[j]].supersedes.value in src.tracks
                                                    && src.tracks[src.tracks[ids[j]].supersedes.value].root ==
                                                       src.tracks[ids[j]].root
    ensures src.tracks[ids[j]].supersedes.Some? ==>
            Place(ids[..j], src.tracks[ids[j]].root) == Place(ids, src.tracks[ids[j]].root)
  {
    assert SoundTrack(src, ids[j]);
    RootIsOldest(src, ids[j]);
    if src.tracks[ids[j]].supersedes.Some? {
      PlaceInPrefix(ids, j, src.tracks[ids[j]].supersedes.value);
      PlaceInPrefix(ids, j, src.tracks[ids[j]].root);
    }
    hide WellKept, AllSound, Ascending, Place;
  }

  lemma JointIsSameChain(src: Db, ids: seq<int>, j: nat)
    requires Dumped(src, ids) && j < |ids| && Joint(src, ids, j) > 0
    ensures src.tracks[ids[Joint(src, ids, j) - 1]].root == src.tracks[ids[j]].root
  {
    hide Ascending, AllSound, WellKept, Place;
    ParentComesBefore(src, ids, j);
    RootIsOldest(src, ids[j]);
    var k := Joint(src, ids, j);
    assert ids[..j][k - 1] == ids[k - 1];
  }

  lemma {:induction false} UnderItsRoot(src: Db, ids: seq<int>, j: nat)
    requires Dumped(src, ids) && j < |ids| && src.tracks[ids[j]].root in ids
    ensures LocalRoot(src, ids, j) == Place(ids, src.tracks[ids[j]].root)
    decreases j
  {
    hide Ascending, AllSound, WellKept, Place;
    ParentComesBefore(src, ids, j);
    RootIsOldest(src, ids[j]);
    PlaceIs(ids, j);
    var k := Joint(src, ids, j);
    if k > 0 {
      JointIsSameChain(src, ids, j);
      UnderItsRoot(src, ids, k - 1);
    }
  }

  /** Its parent was withdrawn, so it is not in the dump. */
  predicate Orphan(src: Db, ids: seq<int>, j: nat)
    requires j < |ids| && ids[j] in src.tracks
  {
    src.tracks[ids[j]].supersedes.Some? && src.tracks[ids[j]].supersedes.value !in ids
  }

  /** Without its root, a chain hangs from its orphans. */
  lemma {:induction false} HangsFromAnOrphan(src: Db, ids: seq<int>, j: nat) returns (o: nat)
    requires Dumped(src, ids) && j < |ids| && src.tracks[ids[j]].root !in ids
    ensures o <= j && Orphan(src, ids, o) && src.tracks[ids[o]].root == src.tracks[ids[j]].root
    ensures LocalRoot(src, ids, j) == o + 1
    decreases j
  {
    hide Ascending, AllSound, WellKept, Place;
    ParentComesBefore(src, ids, j);
    RootIsOldest(src, ids[j]);
    o := j;
    var k := Joint(src, ids, j);
    if k > 0 {
      JointIsSameChain(src, ids, j);
      o := HangsFromAnOrphan(src, ids, k - 1);
    }
  }

  predicate Member(src: Db, ids: seq<int>, root: int, j: nat)
    requires Listed(src, ids)
  {
    j < |ids| && src.tracks[ids[j]].root == root
  }

  ghost predicate OneLocalRoot(src: Db, ids: seq<int>, root: int)
    requires Listed(src, ids)
  {
    forall i: nat, j: nat :: Member(src, ids, root, i) && Member(src, ids, root, j) ==>
      LocalRoot(src, ids, i) == LocalRoot(src, ids, j)
  }

  ghost predicate OneOrphanAtMost(src: Db, ids: seq<int>, root: int)
    requires Listed(src, ids)
  {
    forall i: nat, j: nat :: Member(src, ids, root, i) && Member(src, ids, root, j) ==>
      Orphan(src, ids, i) && Orphan(src, ids, j) ==> i == j
  }

  lemma OrphanStartsAChain(src: Db, ids: seq<int>, j: nat)
    requires Dumped(src, ids) && j < |ids| && src.tracks[ids[j]].root !in ids && Orphan(src, ids, j)
    ensures LocalRoot(src, ids, j) == j + 1
  {
    ParentComesBefore(src, ids, j);
    hide Dumped;
  }

  lemma OneLocalRootIff(src: Db, ids: seq<int>, root: int)
    requires Dumped(src, ids)
    ensures OneLocalRoot(src, ids, root) <==> root in ids || OneOrphanAtMost(src, ids, root)
  {
    hide LocalRoot, Ascending, WellKept, AllSound;
    if root in ids {
      forall j: nat | Member(src, ids, root, j) ensures LocalRoot(src, ids, j) == Place(ids, root) {
        UnderItsRoot(src, ids, j);
      }
    } else {
      forall j: nat | Member(src, ids, root, j) && Orphan(src, ids, j) ensures LocalRoot(src, ids, j) == j + 1 {
        OrphanStartsAChain(src, ids, j);
      }
      if OneOrphanAtMost(src, ids, root) {
        forall i: nat, j: nat | Member(src, ids, root, i) && Member(src, ids, root, j)
          ensures LocalRoot(src, ids, i) == LocalRoot(src, ids, j)
        {
          var o := HangsFromAnOrphan(src, ids, i);
          var q := HangsFromAnOrphan(src, ids, j);
        }
      }
    }
  }

  // -- Chains in a mirror --------------------------------------------------------------

  /** What a node holds after importing the dump of `src` into nothing. */
  function MirrorOf(src: Db, render: Render): Db {
    Import(Begin(EMPTY), Dump(src, src), render).0.db
  }

  ghost predicate Mirrorable(src: Db, render: Render) {
    Exportable(src, render) && Dumped(src, AllTracks(src))
  }

  lemma MirrorRows(src: Db, render: Render)
    requires Exportable(src, render)
    ensures Listed(src, AllTracks(src))
    ensures RowsCopied(src, AllReleases(src), AllTracks(src), MirrorOf(src, render), |AllTracks(src)|)
  {
    MirrorIsACopy(src, render);
    hide AllReleases, AllTracks, Import, Dump, Exportable, RowsCopied, ReleasesCopied;
  }

  lemma MirrorRow(src: Db, render: Render, j: nat)
    requires Exportable(src, render) && j < |AllTracks(src)|
    ensures Listed(src, AllTracks(src)) && j + 1 in MirrorOf(src, render).tracks
    ensures MirrorOf(src, render).tracks[j + 1] == CopyOf(src, AllReleases(src), AllTracks(src), j)
  {
    MirrorRows(src, render);
    hide AllReleases, AllTracks, MirrorOf, Exportable, CopyOf;
  }

  /** A supersedes edge survives exactly when the parent was dumped. */
  lemma EdgeSurvivesIff(src: Db, render: Render, j: nat)
    requires Mirrorable(src, render) && j < |AllTracks(src)|
    ensures var ids := AllTracks(src);
            var edge := src.tracks[ids[j]].supersedes;
            j + 1 in MirrorOf(src, render).tracks &&
            MirrorOf(src, render).tracks[j + 1].supersedes ==
            if edge.Some? && edge.value in ids then Some(Place(ids, edge.value)) else None
  {
    MirrorRow(src, render, j);
    ParentComesBefore(src, AllTracks(src), j);
    hide Dumped, LocalRoot, Exportable, MirrorOf, AllTracks, AllReleases;
  }

  /** If a chain's root was dumped, all its members end in one chain, under the copy of that root,
      whichever of the revisions between were withdrawn. */
  lemma ChainSurvives(src: Db, render: Render, j: nat)
    requires Mirrorable(src, render) && j < |AllTracks(src)| && src.tracks[AllTracks(src)[j]].root in AllTracks(src)
    ensures j + 1 in MirrorOf(src, render).tracks
    ensures MirrorOf(src, render).tracks[j + 1].root == Place(AllTracks(src), src.tracks[AllTracks(src)[j]].root)
  {
    MirrorRow(src, render, j);
    UnderItsRoot(src, AllTracks(src), j);
    hide Dumped, LocalRoot, Exportable, MirrorOf, AllTracks, AllReleases;
  }

  /** The copies of all dumped members of the chain have one root. */
  ghost predicate InOnePiece(src: Db, ids: seq<int>, mirror: Db, root: int)
    requires Listed(src, ids)
  {
    forall i: nat, j: nat :: Member(src, ids, root, i) && Member(src, ids, root, j) ==>
      i + 1 in mirror.tracks && j + 1 in mirror.tracks && mirror.tracks[i + 1].root == mirror.tracks[j + 1].root
  }

  predicate UnderLocalRoot(src: Db, ids: seq<int>, mirror: Db, j: nat)
    requires Listed(src, ids) && j < |ids|
  {
    j + 1 in mirror.tracks && mirror.tracks[j + 1].root == LocalRoot(src, ids, j)
  }

  lemma MirrorRoots(src: Db, render: Render)
    requires Exportable(src, render)
    ensures Listed(src, AllTracks(src))
    ensures forall j: nat :: j < |AllTracks(src)| ==> UnderLocalRoot(src, AllTracks(src), MirrorOf(src, render), j)
  {
    hide LocalRoot, Exportable, MirrorOf, AllTracks, AllReleases, Place;
    MirrorRows(src, render);
    forall j: nat | j < |AllTracks(src)| ensures UnderLocalRoot(src, AllTracks(src), MirrorOf(src, render), j) {
      MirrorRow(src, render, j);
    }
  }

  lemma PiecesByLocalRoot(src: Db, ids: seq<int>, mirror: Db, root: int)
    requires Listed(src, ids) && forall j: nat :: j < |ids| ==> UnderLocalRoot(src, ids, mirror, j)
    ensures InOnePiece(src, ids, mirror, root) <==> OneLocalRoot(src, ids, root)
  {
    hide LocalRoot;
    assert forall j: nat :: Member(src, ids, root, j) ==> UnderLocalRoot(src, ids, mirror, j);
  }

  /** The importer keeps a chain in one piece exactly when its root was dumped or at most one of its
      dumped members lost its parent; otherwise it comes out as several. */
  lemma ChainStaysWholeIff(src: Db, render: Render, root: int)
    requires Mirrorable(src, render)
    ensures var ids := AllTracks(src);
            InOnePiece(src, ids, MirrorOf(src, render), root) <==> root in ids || OneOrphanAtMost(src, ids, root)
  {
    hide Exportable, MirrorOf, AllTracks, AllReleases, OneOrphanAtMost, OneLocalRoot, InOnePiece, UnderLocalRoot;
    MirrorRoots(src, render);
    OneLocalRootIff(src, AllTracks(src), root);
    PiecesByLocalRoot(src, AllTracks(src), MirrorOf(src, render), root);
  }

  // -- A mirror of the mirror ------------------------------------------------------------

  lemma FirstIsThere(ids: seq<int>)
    ensures ids != [] ==> ids[0] in ids
  {
  }

  /** An ascending list of the ids from 1 to `n` is just that. */
  lemma {:induction false} CountsUp(ids: seq<int>, n: nat)
    requires Ascending(ids) && forall x :: x in ids <==> 1 <= x <= n
    ensures |ids| == n && forall i :: 0 <= i < n ==> ids[i] == i + 1
    decreases n
  {
    if n == 0 {
      FirstIsThere(ids);
    } else {
      var last := |ids| - 1;
      assert n in ids && ids[last] in ids;
      var init := ids[..last];
      forall x ensures x in init <==> 1 <= x <= n - 1 {
        assert x in ids && x != ids[last] ==> x in init;
      }
      CountsUp(init, n - 1);
    }
  }

  /** Everything in a mirror is visible, numbered from 1. */
  lemma MirrorLists(src: Db, render: Render)
    requires Exportable(src, render)
    ensures WellKept(MirrorOf(src, render))
    ensures forall t :: t in MirrorOf(src, render).tracks ==> VisibleTrack(MirrorOf(src, render), t)
    ensures |AllTracks(MirrorOf(src, render))| == |AllTracks(src)|
    ensures forall i :: 0 <= i < |AllTracks(src)| ==> AllTracks(MirrorOf(src, render))[i] == i + 1
  {
    var m := MirrorOf(src, render);
    TakedownsStand(EMPTY, Dump(src, src), render);
    MirrorRows(src, render);
    AllListed(m);
    hide AllTracks, AllReleases, Import, MirrorOf, Ascending, Dump, CopyOf, Exportable;
    CountsUp(AllTracks(m), |AllTracks(src)|);
  }

  lemma MirrorReleases(src: Db, render: Render)
    requires Exportable(src, render)
    ensures var m := MirrorOf(src, render);
            forall r :: r in m.releases ==> ParseOshash(m.releases[r].oshash) == Some(m.releases[r].oshash)
  {
    MirrorIsACopy(src, render);
    Lists(src);
    hide AllTracks, AllReleases, Import, Dump, ParseOshash, Ascending, TracksCopied;
    var rids, m := AllReleases(src), MirrorOf(src, render);
    forall r | r in m.releases ensures ParseOshash(m.releases[r].oshash) == Some(m.releases[r].oshash) {
      assert m.releases[r] == src.releases[rids[r - 1]] && VisibleRelease(src, rids[r - 1]);
    }
  }

  /** Parents come first, and one successor each. */
  lemma CopiedEdges(src: Db, rids: seq<int>, ids: seq<int>, m: Db)
    requires IndexHolds(src) && Ascending(ids) && Listed(src, ids) && AllVisible(src, ids)
    requires RowsCopied(src, rids, ids, m, |ids|)
    ensures IndexHolds(m)
    ensures forall t :: t in m.tracks && m.tracks[t].supersedes.Some? ==> m.tracks[t].supersedes.value < t
  {
    hide RowsCopied, AllVisible, IndexHolds, LocalRoot, Ascending;
    forall t | t in m.tracks && m.tracks[t].supersedes.Some? ensures m.tracks[t].supersedes.value < t {
      CopyAt(src, rids, ids, m, |ids|, t);
    }
    forall t, u | t in m.tracks && u in m.tracks && m.tracks[t].supersedes.Some? && t != u
      ensures m.tracks[t].supersedes != m.tracks[u].supersedes
    {
      CopyAt(src, rids, ids, m, |ids|, t);
      CopyAt(src, rids, ids, m, |ids|, u);
      IdsDiffer(ids, t - 1, u - 1);
      hide Joint, Place;
      if ParentPlace(src, ids, u - 1) > 0 {
        CopySupersedesElse(src, rids, ids, t - 1, u - 1);
      }
      hide ParentPlace;
    }
    IndexFromEdges(m);
  }

  lemma IndexFromEdges(m: Db)
    requires forall t, u :: t in m.tracks && u in m.tracks && m.tracks[t].supersedes.Some? && t != u ==>
               m.tracks[t].supersedes != m.tracks[u].supersedes
    ensures IndexHolds(m)
  {
  }

  lemma IdsDiffer(ids: seq<int>, i: nat, j: nat)
    requires Ascending(ids) && i < |ids| && j < |ids| && i != j
    ensures ids[i] != ids[j]
  {
  }

  lemma CopiedTexts(src: Db, render: Render)
    requires Exportable(src, render)
    ensures var m := MirrorOf(src, render);
            && (forall t :: t in m.tracks ==> render(m.tracks[t].body) == Some(m.tracks[t].body))
            && (forall t, u :: t in m.tracks && u in m.tracks && Twins.SaysSame(m.tracks[t], m.tracks[u]) ==> t == u)
  {
    hide AllTracks, AllReleases, MirrorOf, Exportable, LocalRoot, Ascending, RowsCopied;
    var ids, m := AllTracks(src), MirrorOf(src, render);
    Lists(src);
    MirrorRows(src, render);
    forall t | t in m.tracks ensures render(m.tracks[t].body) == Some(m.tracks[t].body) {
      CopyAt(src, AllReleases(src), ids, m, |ids|, t);
      VisibleRenders(src, render, ids[t - 1]);
    }
    forall t, u | t in m.tracks && u in m.tracks && Twins.SaysSame(m.tracks[t], m.tracks[u]) ensures t == u {
      CopiesAreNoTwins(src, render, m, t, u);
    }
  }

  lemma CopiesAreNoTwins(src: Db, render: Render, m: Db, t: int, u: int)
    requires Exportable(src, render) && Listed(src, AllTracks(src)) && Ascending(AllTracks(src)) &&
             AllVisible(src, AllTracks(src))
    requires RowsCopied(src, AllReleases(src), AllTracks(src), m, |AllTracks(src)|)
    requires t in m.tracks && u in m.tracks && Twins.SaysSame(m.tracks[t], m.tracks[u])
    ensures t == u
  {
    hide AllTracks, AllReleases, ReleasesExportable, TracksExportable, LocalRoot, Ascending, RowsCopied, Joint,
         ParentPlace, Place, Seen, AllVisible;
    var ids := AllTracks(src);
    CopyAt(src, AllReleases(src), ids, m, |ids|, t);
    CopyAt(src, AllReleases(src), ids, m, |ids|, u);
    AllAreSeen(src, render, t - 1);
    AllAreSeen(src, render, u - 1);
    CopiesDiffer(src, render, AllReleases(src), ids, t - 1, u - 1);
    if t != u {
      IdsDiffer(ids, t - 1, u - 1);
    }
  }

  lemma AllAreSeen(src: Db, render: Render, j: nat)
    requires Exportable(src, render) && Listed(src, AllTracks(src)) && AllVisible(src, AllTracks(src)) &&
             j < |AllTracks(src)|
    ensures Seen(src, AllReleases(src), AllTracks(src), j)
  {
    AgreeingIsSeen(src, src, j);
    assert VisibleTrack(src, AllTracks(src)[j]);
    hide AllReleases, AllTracks, Seen;
  }

  lemma VisibleRenders(src: Db, render: Render, t: int)
    requires Exportable(src, render) && VisibleTrack(src, t)
    ensures render(src.tracks[t].body) == Some(src.tracks[t].body)
  {
  }

  /** A mirror can itself be mirrored. */
  lemma MirrorIsExportable(src: Db, render: Render)
    requires Exportable(src, render)
    ensures Exportable(MirrorOf(src, render), render)
  {
    hide AllTracks, AllReleases, MirrorOf, RowsCopied, CopyOf, ParseOshash, Ascending;
    Lists(src);
    MirrorRows(src, render);
    MirrorLists(src, render);
    MirrorReleases(src, render);
    CopiedTexts(src, render);
    CopiedEdges(src, AllReleases(src), AllTracks(src), MirrorOf(src, render));
    hide WellKept, IndexHolds;
  }

  /** Going by surviving edges alone, where the chain of the j-th dumped track starts. */
  function EdgeRoot(src: Db, ids: seq<int>, j: nat): (r: nat)
    requires Listed(src, ids) && j < |ids|
    ensures 1 <= r <= j + 1
    decreases j
  {
    var k := ParentPlace(src, ids, j);
    if k == 0 then j + 1 else EdgeRoot(src, ids, k - 1)
  }

  lemma PlaceOfCount(ids: seq<int>, j: nat, k: nat)
    requires j <= |ids| && 1 <= k <= j && forall i :: 0 <= i < |ids| ==> ids[i] == i + 1
    ensures Place(ids[..j], k) == k
  {
    assert ids[..j][k - 1] == k;
    PlaceIs(ids[..j], k - 1);
  }

  /** A copy has the edge it was copied with, and no other way back to its chain. */
  lemma CopiedJoint(src: Db, rids: seq<int>, ids: seq<int>, m: Db, again: seq<int>, j: nat)
    requires Listed(src, ids) && RowsCopied(src, rids, ids, m, |ids|) && Listed(m, again) && j < |ids|
    requires |again| == |ids| && forall i :: 0 <= i < |ids| ==> again[i] == i + 1
    ensures Joint(m, again, j) == ParentPlace(src, ids, j)
  {
    hide LocalRoot, Place, RowsCopied;
    var k := ParentPlace(src, ids, j);
    assert again[j] == j + 1;
    RowIs(src, rids, ids, m, j);
    if k > 0 {
      PlaceOfCount(again, j, k);
    }
  }

  lemma RowIs(src: Db, rids: seq<int>, ids: seq<int>, m: Db, j: nat)
    requires Listed(src, ids) && RowsCopied(src, rids, ids, m, |ids|) && j < |ids|
    ensures j + 1 in m.tracks && m.tracks[j + 1] == CopyOf(src, rids, ids, j)
  {
  }

  lemma {:induction false} SecondRoot(src: Db, rids: seq<int>, ids: seq<int>, m: Db, again: seq<int>, j: nat)
    requires Listed(src, ids) && RowsCopied(src, rids, ids, m, |ids|) && Listed(m, again) && j < |ids|
    requires |again| == |ids| && forall i :: 0 <= i < |ids| ==> again[i] == i + 1
    ensures LocalRoot(m, again, j) == EdgeRoot(src, ids, j)
    decreases j
  {
    hide ParentPlace, Joint, RowsCopied, Place;
    CopiedJoint(src, rids, ids, m, again, j);
    if Joint(m, again, j) > 0 {
      SecondRoot(src, rids, ids, m, again, Joint(m, again, j) - 1);
    }
  }

  /** No dumped member of the chain lost its parent. */
  ghost predicate NoOrphans(src: Db, ids: seq<int>, root: int)
    requires Listed(src, ids)
  {
    forall j: nat :: Member(src, ids, root, j) ==> !Orphan(src, ids, j)
  }

  lemma {:induction false} EdgesSuffice(src: Db, ids: seq<int>, root: int, j: nat)
    requires Dumped(src, ids) && Member(src, ids, root, j) && (root !in ids || NoOrphans(src, ids, root))
    ensures EdgeRoot(src, ids, j) == LocalRoot(src, ids, j)
    decreases j
  {
    hide Ascending, AllSound, WellKept, Place;
    ParentComesBefore(src, ids, j);
    RootIsOldest(src, ids[j]);
    var k := Joint(src, ids, j);
    assert k == ParentPlace(src, ids, j);
    if k > 0 {
      JointIsSameChain(src, ids, j);
      EdgesSuffice(src, ids, root, k - 1);
    }
  }

  lemma OrphanIsCutOff(src: Db, ids: seq<int>, root: int, j: nat)
    requires Dumped(src, ids) && Member(src, ids, root, j) && root in ids && Orphan(src, ids, j)
    ensures EdgeRoot(src, ids, j) != LocalRoot(src, ids, j)
  {
    hide Ascending, AllSound, WellKept, Place, LocalRoot;
    ParentComesBefore(src, ids, j);
    RootIsOldest(src, ids[j]);
    UnderItsRoot(src, ids, j);
  }

  /** Every copied member of the chain has the root in `second` that it has in `first`. */
  ghost predicate SameRoots(src: Db, ids: seq<int>, root: int, first: Db, second: Db)
    requires Listed(src, ids)
  {
    forall j: nat :: Member(src, ids, root, j) ==>
      j + 1 in first.tracks && j + 1 in second.tracks && first.tracks[j + 1].root == second.tracks[j + 1].root
  }

  lemma SecondMirrorRow(src: Db, render: Render, j: nat)
    requires Exportable(src, render) && j < |AllTracks(src)|
    ensures Listed(src, AllTracks(src))
    ensures var m := MirrorOf(src, render);
            && j + 1 in m.tracks && j + 1 in MirrorOf(m, render).tracks
            && m.tracks[j + 1].root == LocalRoot(src, AllTracks(src), j)
            && MirrorOf(m, render).tracks[j + 1].root == EdgeRoot(src, AllTracks(src), j)
  {
    hide AllTracks, AllReleases, MirrorOf, Exportable, LocalRoot, EdgeRoot, Joint, ParentPlace, Place, RowsCopied;
    var m := MirrorOf(src, render);
    MirrorRows(src, render);
    MirrorIsExportable(src, render);
    MirrorLists(src, render);
    MirrorRow(src, render, j);
    MirrorRow(m, render, j);
    SecondRoot(src, AllReleases(src), AllTracks(src), m, AllTracks(m), j);
  }

  /** A row rejoined by root carries no edge, so a mirror of the mirror, which has only edges to go
      by, keeps a chain as the mirror has it exactly when no dumped member lost its parent, or the root
      was not dumped and nothing was rejoined in the first place. Otherwise each such member
      starts a chain of its own there. */
  lemma SecondMirrorKeepsChainIff(src: Db, render: Render, root: int)
    requires Mirrorable(src, render)
    ensures var ids, m := AllTracks(src), MirrorOf(src, render);
            SameRoots(src, ids, root, m, MirrorOf(m, render)) <==> root !in ids || NoOrphans(src, ids, root)
  {
    hide AllTracks, MirrorOf, Exportable, LocalRoot, EdgeRoot, Place;
    var ids, m := AllTracks(src), MirrorOf(src, render);
    forall j: nat | Member(src, ids, root, j)
      ensures j + 1 in m.tracks && j + 1 in MirrorOf(m, render).tracks
      ensures m.tracks[j + 1].root == MirrorOf(m, render).tracks[j + 1].root
              <==> EdgeRoot(src, ids, j) == LocalRoot(src, ids, j)
    {
      SecondMirrorRow(src, render, j);
    }
    if root !in ids || NoOrphans(src, ids, root) {
      forall j: nat | Member(src, ids, root, j) ensures EdgeRoot(src, ids, j) == LocalRoot(src, ids, j) {
        EdgesSuffice(src, ids, root, j);
      }
    } else {
      var j: nat :| Member(src, ids, root, j) && Orphan(src, ids, j);
      OrphanIsCutOff(src, ids, root, j);
    }
  }

  lemma CutOffRoots(src: Db, ids: seq<int>, root: int, j: nat)
    requires Dumped(src, ids) && Member(src, ids, root, j) && (Orphan(src, ids, j) || ids[j] == root)
    ensures EdgeRoot(src, ids, j) == j + 1
  {
    hide Ascending, AllSound, WellKept, Place;
    ParentComesBefore(src, ids, j);
    RootIsOldest(src, ids[j]);
  }

  lemma RootAndOrphanPart(src: Db, render: Render, root: int, j: nat)
    requires Mirrorable(src, render) && root in AllTracks(src)
    requires Member(src, AllTracks(src), root, j) && Orphan(src, AllTracks(src), j)
    ensures !InOnePiece(src, AllTracks(src), MirrorOf(MirrorOf(src, render), render), root)
  {
    hide AllTracks, MirrorOf, Exportable, EdgeRoot, LocalRoot, WellKept, AllSound;
    var ids := AllTracks(src);
    var i: nat :| i < |ids| && ids[i] == root;
    RootIsOldest(src, ids[j]);
    assert Member(src, ids, root, i);
    CutOffRoots(src, ids, root, i);
    CutOffRoots(src, ids, root, j);
    SecondMirrorRow(src, render, i);
    SecondMirrorRow(src, render, j);
  }

  lemma SameRootsSamePieces(src: Db, ids: seq<int>, root: int, first: Db, second: Db)
    requires Listed(src, ids) && SameRoots(src, ids, root, first, second)
    ensures InOnePiece(src, ids, first, root) <==> InOnePiece(src, ids, second, root)
  {
  }

  /** When a mirror of the mirror has a chain in one piece: with its root dumped, only if no dumped
      member lost its parent, though then the mirror always has it in one piece. */
  lemma SecondMirrorStaysWholeIff(src: Db, render: Render, root: int)
    requires Mirrorable(src, render)
    ensures var ids := AllTracks(src);
            InOnePiece(src, ids, MirrorOf(MirrorOf(src, render), render), root) <==>
            if root in ids then NoOrphans(src, ids, root) else OneOrphanAtMost(src, ids, root)
  {
    var ids, m := AllTracks(src), MirrorOf(src, render);
    hide AllTracks, MirrorOf, Exportable, InOnePiece, SameRoots, OneOrphanAtMost, WellKept, AllSound;
    ChainStaysWholeIff(src, render, root);
    SecondMirrorKeepsChainIff(src, render, root);
    if root in ids && !NoOrphans(src, ids, root) {
      var j: nat :| Member(src, ids, root, j) && Orphan(src, ids, j);
      RootAndOrphanPart(src, render, root, j);
    } else {
      SameRootsSamePieces(src, ids, root, m, MirrorOf(m, render));
    }
  }

  // -- Chains that come apart ------------------------------------------------------------

  const OSHASH := "0123456789abcdef"

  /** The i-th revision of one chain, taken down or not. */
  function Revision(i: nat, down: bool): TrackRow {
    TrackRow(1, "en", seq(i, _ => 'a'), false, false, None, "default", None, "shared", if down then Some(0) else None,
             1, i, if i == 1 then None else Some(i - 1), false)
  }

  /** A node holding `n` revisions of one track, those in `down` taken down. */
  function Revisions(n: nat, down: set<int>): Db {
    Db(map[1 := ReleaseRow(OSHASH, None, 0, None)],
       map i: int | 1 <= i <= n :: Revision(i, i in down), 2, n + 1)
  }

  function Verbatim(body: string): Option<string> {
    Some(body)
  }

  lemma RevisionsAreKept(n: nat, down: set<int>)
    ensures WellKept(Revisions(n, down))
  {
  }

  lemma RevisionsAreLinked(n: nat, down: set<int>)
    ensures AllSound(Revisions(n, down))
  {
  }

  lemma RevisionsAreNumbered(n: nat, down: set<int>)
    ensures DistinctRevisions(Revisions(n, down)) && IndexHolds(Revisions(n, down))
  {
  }

  lemma RevisionsSayDifferent(n: nat, down: set<int>)
    ensures Twins.NoTwins(Revisions(n, down))
  {
    var db := Revisions(n, down);
    forall t, u | t in db.tracks && u in db.tracks && Twins.SaysSame(db.tracks[t], db.tracks[u]) ensures t == u {
      assert |db.tracks[t].body| == t && |db.tracks[u].body| == u;
    }
  }

  lemma OshashIsCanonical()
    ensures ParseOshash(OSHASH) == Some(OSHASH)
  {
    assert Lookups.ToLower(OSHASH) == OSHASH;
  }

  lemma RevisionsAreMirrorable(n: nat, down: set<int>)
    ensures var db := Revisions(n, down); Sound(db) && Mirrorable(db, Verbatim) && Listed(db, AllTracks(db))
  {
    hide AllTracks, ParseOshash, WellKept, AllSound, DistinctRevisions, IndexHolds, Twins.NoTwins, Exportable,
         Ascending;
    RevisionsAreKept(n, down);
    RevisionsAreLinked(n, down);
    RevisionsAreNumbered(n, down);
    RevisionsSayDifferent(n, down);
    OshashIsCanonical();
    Lists(Revisions(n, down));
    SoundNodesExport(Revisions(n, down), Verbatim);
  }

  lemma RevisionsDumped(n: nat, down: set<int>)
    ensures var db := Revisions(n, down); forall i :: i in AllTracks(db) <==> 1 <= i <= n && i !in down
  {
    var db := Revisions(n, down);
    AllListed(db);
    RevisionsAreKept(n, down);
    hide AllTracks, WellKept, Ascending;
    assert forall i :: VisibleTrack(db, i) <==> 1 <= i <= n && i !in down;
  }

  lemma WhereRevisionIs(n: nat, down: set<int>, i: nat) returns (j: nat)
    requires 1 <= i <= n && i !in down && Listed(Revisions(n, down), AllTracks(Revisions(n, down)))
    ensures var db := Revisions(n, down);
            && j < |AllTracks(db)| && AllTracks(db)[j] == i && Member(db, AllTracks(db), 1, j)
            && (i > 1 && i - 1 in down ==> Orphan(db, AllTracks(db), j))
  {
    RevisionsDumped(n, down);
    hide AllTracks, Listed;
    j :| j < |AllTracks(Revisions(n, down))| && AllTracks(Revisions(n, down))[j] == i;
  }

  /** Three revisions, the middle one taken down: the mirror has one chain, its mirror two. */
  lemma TwoMirrorsSplitAChain(src: Db)
    requires src == Revisions(3, {2})
    ensures Sound(src) && Mirrorable(src, Verbatim) && Listed(src, AllTracks(src))
    ensures InOnePiece(src, AllTracks(src), MirrorOf(src, Verbatim), 1)
    ensures !InOnePiece(src, AllTracks(src), MirrorOf(MirrorOf(src, Verbatim), Verbatim), 1)
  {
    hide AllTracks, MirrorOf, Mirrorable, Sound, InOnePiece, Revisions, Listed, Orphan, Member;
    RevisionsAreMirrorable(3, {2});
    RevisionsDumped(3, {2});
    ChainStaysWholeIff(src, Verbatim, 1);
    var j := WhereRevisionIs(3, {2}, 3);
    SecondMirrorStaysWholeIff(src, Verbatim, 1);
  }

  /** Four revisions, the first and the third taken down: the mirror already has two chains. */
  lemma OneMirrorSplitsAChain(src: Db)
    requires src == Revisions(4, {1, 3})
    ensures Sound(src) && Mirrorable(src, Verbatim) && Listed(src, AllTracks(src))
    ensures !InOnePiece(src, AllTracks(src), MirrorOf(src, Verbatim), 1)
  {
    hide AllTracks, MirrorOf, Mirrorable, Sound, InOnePiece, Revisions, Listed, Orphan, Member;
    RevisionsAreMirrorable(4, {1, 3});
    RevisionsDumped(4, {1, 3});
    var i := WhereRevisionIs(4, {1, 3}, 2);
    var j := WhereRevisionIs(4, {1, 3}, 4);
    ChainStaysWholeIff(src, Verbatim, 1);
  }
}
