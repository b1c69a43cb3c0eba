/** What an import does to the invariants of revision chains: which of them every line keeps, exactly
    which lines keep the others, and exactly which mirrors are sound nodes themselves.
 */
module SoundImports {
  import opened Wrappers
  import opened Catalogue
  import opened Uploads
  import opened Dumps
  import opened Imports
  import opened Mirroring
  import opened MirroredChains
  import opened NewerLines
  import Reimport

  // -- One line ---------------------------------------------------------------------------

  /** The text is new here, under a release that is up here. */
  predicate IsNewText(s: Pass, t: TrackLine, render: Render) {
    && t.releaseId in s.releaseIds && s.releaseIds[t.releaseId] != 0 && render(t.body).Some?
    && FindIdenticalTrack(s.db, s.releaseIds[t.releaseId], t.lang, render(t.body).value) == 0
  }

  /** The row of a new text. */
  function RowFor(s: Pass, t: TrackLine, render: Render): TrackRow
    requires IsNewText(s, t, render)
  {
    Numbered(RowOf(t, s.releaseIds[t.releaseId], render(t.body).value, Relink(s, t).0, Relink(s, t).1), s.db.nextTrack)
  }

  /** What is remembered are rows, with their roots. */
  ghost predicate Linked(s: Pass) {
    && s.trackIds.Keys == s.trackRoots.Keys
    && forall y :: y in s.trackIds ==>
         s.trackIds[y] in s.db.tracks && s.db.tracks[s.trackIds[y]].root == s.trackRoots[y]
  }

  /** Nothing new is remembered, or one row with its root. */
  ghost predicate RemembersOneRow(s: Pass, s': Pass) {
    || (s'.trackIds == s.trackIds && s'.trackRoots == s.trackRoots)
    || exists y :: y in s'.trackIds && AddsRow(s, s', y)
  }

  ghost predicate AddsRow(s: Pass, s': Pass, y: int)
    requires y in s'.trackIds
  {
    var id := s'.trackIds[y];
    && id in s'.db.tracks && s'.trackIds == s.trackIds[y := id]
    && s'.trackRoots == s.trackRoots[y := s'.db.tracks[id].root]
  }

  lemma TrackStepRemembers(s: Pass, t: TrackLine, render: Render)
    requires TrackStep(s, t, render).Success?
    ensures RemembersOneRow(s, TrackStep(s, t, render).value)
  {
    hide MayInsert, Relink, IdenticalFrom;
    var s' := TrackStep(s, t, render).value;
    if s'.trackIds != s.trackIds || s'.trackRoots != s.trackRoots {
      assert AddsRow(s, s', t.id);
    }
  }

  lemma ReleaseStepRemembers(s: Pass, id: int, oshash: string, phash: Option<string>, durationMs: int)
    requires ReleaseStep(s, id, oshash, phash, durationMs).Success?
    ensures RemembersOneRow(s, ReleaseStep(s, id, oshash, phash, durationMs).value)
  {
    hide ParseOshash, PHashing.Parse, GetOrCreateRelease;
  }

  lemma StepRemembers(s: Pass, line: Line, render: Render)
    requires LineStep(s, line, render).Success?
    ensures RemembersOneRow(s, LineStep(s, line, render).value)
  {
    hide TrackStep, ReleaseStep;
    match line
    case ReleaseLine(id, oshash, phash, durationMs) => ReleaseStepRemembers(s, id, oshash, phash, durationMs);
    case OfTrack(t) => TrackStepRemembers(s, t, render);
    case _ =>
  }

  lemma LinkedOn(s: Pass, s': Pass)
    requires Linked(s) && RemembersOneRow(s, s')
    requires forall id :: id in s.db.tracks ==> id in s'.db.tracks && s'.db.tracks[id].root == s.db.tracks[id].root
    ensures Linked(s')
  {
    assert s.trackIds.Keys == s.trackRoots.Keys;
    forall y | y in s.trackIds
      ensures s.trackIds[y] in s'.db.tracks && s'.db.tracks[s.trackIds[y]].root == s.trackRoots[y]
    {
      var id := s.trackIds[y];
      assert id in s.db.tracks;
    }
    if s'.trackIds != s.trackIds || s'.trackRoots != s.trackRoots {
      var y :| y in s'.trackIds && AddsRow(s, s', y);
    }
  }

  lemma RootsStay(s: Pass, line: Line, render: Render)
    requires Proper(s) && LineStep(s, line, render).Success?
    ensures var d, d' := s.db, LineStep(s, line, render).value.db;
            forall id :: id in d.tracks ==> id in d'.tracks && d'.tracks[id].root == d.tracks[id].root
  {
    LineStepKeeps(s, line, render);
    var d, d' := s.db, LineStep(s, line, render).value.db;
    hide LineStep, Proper;
    forall id | id in d.tracks ensures id in d'.tracks && d'.tracks[id].root == d.tracks[id].root {
      assert SameButKind(d.tracks[id], d'.tracks[id]);
    }
  }

  lemma StepStaysLinked(s: Pass, line: Line, render: Render)
    requires Proper(s) && Linked(s) && LineStep(s, line, render).Success?
    ensures Linked(LineStep(s, line, render).value)
  {
    hide *;
    RootsStay(s, line, render);
    StepRemembers(s, line, render);
    LinkedOn(s, LineStep(s, line, render).value);
  }

  /** So at every point of every import. */
  lemma {:induction false} ImportStaysLinked(s: Pass, lines: seq<Line>, render: Render)
    requires Proper(s) && Linked(s)
    ensures Linked(Import(s, lines, render).0)
    decreases lines
  {
    hide LineStep, Proper, Linked;
    if lines != [] && LineStep(s, lines[0], render).Success? {
      LineStepKeeps(s, lines[0], render);
      StepStaysLinked(s, lines[0], render);
      ImportStaysLinked(LineStep(s, lines[0], render).value, lines[1..], render);
    }
  }

  /** The row starts a chain, or follows its parent there. */
  predicate FollowsItsParent(s: Pass, t: TrackLine, row: TrackRow) {
    var (parent, root) := Relink(s, t);
    root == 0 || (parent.Some? && parent.value in s.db.tracks && Link(s.db.tracks[parent.value], row))
  }

  /** Its chain here has no such revision yet. */
  predicate HasFreshNumber(s: Pass, t: TrackLine, row: TrackRow) {
    Relink(s, t).1 == 0 || forall x :: x in s.db.tracks ==> !SameRevision(s.db.tracks[x], row)
  }

  lemma NewTextAddsItsRow(s: Pass, t: TrackLine, render: Render)
    requires IsNewText(s, t, render) && TrackStep(s, t, render).Success?
    ensures TrackStep(s, t, render).value.db == AddRow(s.db, RowFor(s, t, render)) &&
            MayInsert(s.db, RowFor(s, t, render))
  {
    hide FindIdenticalTrack, Relink, MayInsert;
  }

  lemma LinkedRoot(s: Pass, y: int)
    requires Linked(s) && WellKept(s.db) && AllSound(s.db) && y in s.trackIds
    ensures y in s.trackRoots && s.trackRoots[y] in s.db.tracks && s.trackRoots[y] != 0
    ensures s.trackIds[y] in s.db.tracks && s.trackRoots[y] == s.db.tracks[s.trackIds[y]].root
  {
    assert SoundTrack(s.db, s.trackIds[y]);
    hide AllSound;
  }

  /** Where a row's root is another row's, that is a row here. */
  lemma RelinkedIsThere(s: Pass, t: TrackLine)
    requires Linked(s) && WellKept(s.db) && AllSound(s.db)
    ensures var (parent, root) := Relink(s, t);
            && (parent.Some? ==> parent.value in s.db.tracks && root == s.db.tracks[parent.value].root)
            && (root != 0 ==> root in s.db.tracks) && (parent.Some? ==> root != 0)
  {
    assert s.trackIds.Keys == s.trackRoots.Keys;
    hide AllSound, WellKept, Linked;
    if t.supersedes.Some? && t.supersedes.value in s.trackIds {
      LinkedRoot(s, t.supersedes.value);
    }
    if t.root in s.trackIds {
      LinkedRoot(s, t.root);
    }
  }

  /** A row added with a parent or without, in terms of where it hangs. */
  lemma RowFitsIff(db: Db, row: TrackRow, parent: Option<int>, root: int)
    requires WellKept(db) && row.supersedes == parent && row.root == (if root != 0 then root else db.nextTrack)
    requires (root != 0 ==> root in db.tracks) && (root == 0 ==> parent.None? && row.revision == 1)
    requires parent.Some? ==> parent.value in db.tracks && db.tracks[parent.value].revision >= 1
    ensures SoundTrack(AddRow(db, row), db.nextTrack) <==>
            root == 0 || (parent.Some? && Link(db.tracks[parent.value], row))
  {
    assert db.nextTrack !in db.tracks;
  }

  lemma RowForIs(s: Pass, t: TrackLine, render: Render)
    requires IsNewText(s, t, render)
    ensures var (parent, root) := Relink(s, t);
            var row := RowFor(s, t, render);
            && row.supersedes == parent && row.root == (if root != 0 then root else s.db.nextTrack)
            && row.Live() && (root == 0 ==> row.revision == 1)
  {
    hide Relink, FindIdenticalTrack;
  }

  lemma RevisionsArePositive(db: Db, x: int)
    requires AllSound(db) && x in db.tracks
    ensures db.tracks[x].revision >= 1
  {
    assert SoundTrack(db, x);
  }

  lemma SoundAfterInsertIff(db: Db, row: TrackRow)
    requires WellKept(db) && AllSound(db)
    ensures AllSound(AddRow(db, row)) <==> SoundTrack(AddRow(db, row), db.nextTrack)
  {
    if SoundTrack(AddRow(db, row), db.nextTrack) {
      ChainsAfterInsert(db, row);
    }
    hide WellKept;
  }

  lemma DistinctAfterInsertIff(db: Db, row: TrackRow)
    requires WellKept(db) && DistinctRevisions(db)
    ensures DistinctRevisions(AddRow(db, row)) <==> NewRevision(db, row)
  {
    var after := AddRow(db, row);
    assert db.nextTrack !in db.tracks;
    if NewRevision(db, row) {
      RevisionsAfterInsert(db, row);
    } else {
      var x :| x in db.tracks && SameRevision(db.tracks[x], row);
      assert SameRevision(after.tracks[x], after.tracks[db.nextTrack]) && x != db.nextTrack;
    }
  }

  /** A row under its own new root has a number of its own. */
  lemma OwnRootIsFresh(db: Db, row: TrackRow)
    requires WellKept(db) && AllSound(db) && row.root == db.nextTrack
    ensures NewRevision(db, row)
  {
    RootsAreKept(db);
    assert db.nextTrack !in db.tracks;
    hide AllSound;
  }

  /** Every imported line keeps ids in order and one live successor for each track. It keeps edges within
      their chains exactly when its row starts a chain or follows its parent, and revision numbers
      distinct exactly when its chain has no such revision yet. */
  lemma ImportedLineKeepsSoundIff(s: Pass, t: TrackLine, render: Render)
    requires Proper(s) && Linked(s) && Sound(s.db) && IsNewText(s, t, render) && TrackStep(s, t, render).Success?
    ensures var after, row := TrackStep(s, t, render).value.db, RowFor(s, t, render);
            && WellKept(after) && IndexHolds(after)
            && (AllSound(after) <==> FollowsItsParent(s, t, row))
            && (DistinctRevisions(after) <==> HasFreshNumber(s, t, row))
  {
    hide WellKept, AllSound, DistinctRevisions, IndexHolds, TrackStep, RowFor, IsNewText, Relink, MayInsert,
         NewRevision, Link, AddRow, Linked;
    var row := RowFor(s, t, render);
    var (parent, root) := Relink(s, t);
    NewTextAddsItsRow(s, t, render);
    TrackStepKeeps(s, t, render);
    IndexAfterInsert(s.db, row);
    RelinkedIsThere(s, t);
    RowForIs(s, t, render);
    if parent.Some? {
      RevisionsArePositive(s.db, parent.value);
    }
    RowFitsIff(s.db, row, parent, root);
    SoundAfterInsertIff(s.db, row);
    DistinctAfterInsertIff(s.db, row);
    if root == 0 {
      OwnRootIsFresh(s.db, row);
    }
    NewRevisionIs(s.db, row);
    hide Extends, Proper;
  }

  lemma NewRevisionIs(db: Db, row: TrackRow)
    ensures NewRevision(db, row) <==> forall x :: x in db.tracks ==> !SameRevision(db.tracks[x], row)
  {
  }

  /** Any other line keeps them all. */
  lemma OtherLinesKeepSound(s: Pass, line: Line, render: Render)
    requires Proper(s) && Sound(s.db) && LineStep(s, line, render).Success?
    requires line.OfTrack? ==> !IsNewText(s, line.track, render)
    ensures Sound(LineStep(s, line, render).value.db)
  {
    hide Sound;
    match line
    case MetaLine(_) =>
    case ReleaseLine(id, oshash, phash, durationMs) =>
      var ph := if phash.Some? then PHashing.Parse(phash.value) else None;
      hide ParseOshash, PHashing.Parse;
      if ParseOshash(oshash).Some? {
        ReleaseKeepsSound(s.db, ParseOshash(oshash).value, ph, durationMs);
      }
      hide GetOrCreateRelease;
    case OfTrack(t) =>
      hide FindIdenticalTrack, CreateTrack, Relink;
      if t.releaseId in s.releaseIds && render(t.body).Some? {
        var existing := FindIdenticalTrack(s.db, s.releaseIds[t.releaseId], t.lang, render(t.body).value);
        SetKindKeepsSound(s.db, existing, KindOf(t), t.kindLabel);
      }
      hide SetKind;
    case OtherLine(_) =>
  }

  // -- A whole mirror ---------------------------------------------------------------------------

  /** The local root of a copy is the copy of a track of its chain. */
  lemma {:induction false} LocalRootIsOfChain(src: Db, ids: seq<int>, j: nat)
    requires Dumped(src, ids) && j < |ids|
    ensures src.tracks[ids[LocalRoot(src, ids, j) - 1]].root == src.tracks[ids[j]].root
    decreases j
  {
    hide WellKept, AllSound, Ascending, Place, Joint;
    var k := Joint(src, ids, j);
    if k > 0 {
      JointIsSameChain(src, ids, j);
      LocalRootIsOfChain(src, ids, k - 1);
    }
  }

  /** The j-th copy hangs from another row. */
  predicate Joined(src: Db, ids: seq<int>, j: nat)
    requires Listed(src, ids) && j < |ids|
  {
    Joint(src, ids, j) > 0
  }

  /** The numbers of a copy: its own chain starts at 1, any other keeps the number it had, above 1. */
  lemma CopyNumbers(src: Db, rids: seq<int>, ids: seq<int>, j: nat)
    requires Dumped(src, ids) && j < |ids|
    ensures var row := CopyOf(src, rids, ids, j);
            && row.root == LocalRoot(src, ids, j) <= j + 1
            && (Joined(src, ids, j) ==> row.revision == src.tracks[ids[j]].revision > 1 && row.root <= j)
            && (!Joined(src, ids, j) ==> row.revision == 1 && row.root == j + 1)
  {
    assert SoundTrack(src, ids[j]);
    hide WellKept, AllSound, Ascending, Place, ParentPlace;
  }

  lemma CopiesAreNumbered(src: Db, rids: seq<int>, ids: seq<int>, i: nat, j: nat)
    requires Dumped(src, ids) && DistinctRevisions(src) && i < |ids| && j < |ids|
    requires SameRevision(CopyOf(src, rids, ids, i), CopyOf(src, rids, ids, j))
    ensures i == j
  {
    hide WellKept, AllSound, Ascending, CopyOf, LocalRoot, Joined, DistinctRevisions;
    CopyNumbers(src, rids, ids, i);
    CopyNumbers(src, rids, ids, j);
    LocalRootIsOfChain(src, ids, i);
    LocalRootIsOfChain(src, ids, j);
    if Joined(src, ids, i) && Joined(src, ids, j) {
      SameNumberSameTrack(src, ids[i], ids[j]);
      if i != j {
        IdsDiffer(ids, i, j);
      }
    }
  }

  lemma SameNumberSameTrack(src: Db, t: int, u: int)
    requires DistinctRevisions(src) && t in src.tracks && u in src.tracks && SameRevision(src.tracks[t], src.tracks[u])
    ensures t == u
  {
  }

  /** A row that starts a chain, or has a parent it follows, or hangs from a root alone. */
  lemma JudgeRow(m: Db, id: int, k: nat, joined: bool)
    requires id in m.tracks && m.tracks[id].supersedes == if k > 0 then Some(k) else None
    requires k > 0 ==> joined && k < id && k in m.tracks && Link(m.tracks[k], m.tracks[id])
    requires if joined then m.tracks[id].root != id && m.tracks[id].root in m.tracks && m.tracks[id].revision > 1
             else m.tracks[id].root == id && m.tracks[id].revision == 1
    ensures SoundTrack(m, id) <==> !joined || k > 0
  {
  }

  /** The copy follows its parent, or starts a chain. */
  lemma CopyIsSoundIff(src: Db, rids: seq<int>, ids: seq<int>, m: Db, j: nat)
    requires Dumped(src, ids) && j < |ids| && RowsCopied(src, rids, ids, m, |ids|)
    ensures j + 1 in m.tracks
    ensures SoundTrack(m, j + 1) <==> !Joined(src, ids, j) || ParentPlace(src, ids, j) > 0
  {
    hide WellKept, AllSound, Ascending, Place, LocalRoot, RowsCopied, Link, Joined, Joint;
    RowIs(src, rids, ids, m, j);
    CopyNumbers(src, rids, ids, j);
    RowIs(src, rids, ids, m, LocalRoot(src, ids, j) - 1);
    ParentMeansJoined(src, ids, j);
    var k := ParentPlace(src, ids, j);
    if k > 0 {
      CopyLinks(src, rids, ids, j);
      RowIs(src, rids, ids, m, k - 1);
    }
    hide ParentPlace;
    JudgeRow(m, j + 1, k, Joined(src, ids, j));
  }

  lemma ParentMeansJoined(src: Db, ids: seq<int>, j: nat)
    requires Listed(src, ids) && j < |ids|
    ensures ParentPlace(src, ids, j) > 0 ==> Joined(src, ids, j)
  {
  }

  /** An edge that was copied joins what it joined. */
  lemma CopyLinks(src: Db, rids: seq<int>, ids: seq<int>, j: nat)
    requires Dumped(src, ids) && j < |ids| && ParentPlace(src, ids, j) > 0
    ensures var k := ParentPlace(src, ids, j);
            k <= j && Link(CopyOf(src, rids, ids, k - 1), CopyOf(src, rids, ids, j))
  {
    var k := ParentPlace(src, ids, j);
    assert SoundTrack(src, ids[j]);
    assert ids[..j][k - 1] == ids[k - 1];
    CopyNumbers(src, rids, ids, j);
    CopyNumbers(src, rids, ids, k - 1);
    hide WellKept, AllSound, Ascending, Place;
  }

  /** Rejoined by root: its parent is not in the dump, its root is. */
  predicate RejoinedByRoot(src: Db, ids: seq<int>, j: nat)
    requires Listed(src, ids) && j < |ids|
  {
    Orphan(src, ids, j) && src.tracks[ids[j]].root in ids
  }

  lemma RejoinedIffByRoot(src: Db, ids: seq<int>, j: nat)
    requires Dumped(src, ids) && j < |ids|
    ensures RejoinedByRoot(src, ids, j) <==> Joined(src, ids, j) && ParentPlace(src, ids, j) == 0
  {
    ParentComesBefore(src, ids, j);
    hide WellKept, AllSound, Ascending;
  }

  lemma MirrorNumbers(src: Db, rids: seq<int>, ids: seq<int>, m: Db)
    requires Dumped(src, ids) && Listed(src, ids) && DistinctRevisions(src) && RowsCopied(src, rids, ids, m, |ids|)
    ensures DistinctRevisions(m)
  {
    hide Dumped, Listed, RowsCopied, CopyOf, SameRevision;
    forall t, u | t in m.tracks && u in m.tracks && SameRevision(m.tracks[t], m.tracks[u]) ensures t == u {
      hide DistinctRevisions;
      CopyAt(src, rids, ids, m, |ids|, t);
      CopyAt(src, rids, ids, m, |ids|, u);
      CopiesAreNumbered(src, rids, ids, t - 1, u - 1);
    }
  }

  lemma MirrorChainsIff(src: Db, rids: seq<int>, ids: seq<int>, m: Db)
    requires Dumped(src, ids) && RowsCopied(src, rids, ids, m, |ids|)
    ensures AllSound(m) <==> forall j: nat :: j < |ids| ==> !RejoinedByRoot(src, ids, j)
  {
    hide RowsCopied, SoundTrack, RejoinedByRoot, Joined, ParentPlace, WellKept, Ascending;
    forall j: nat | j < |ids| ensures j + 1 in m.tracks && (SoundTrack(m, j + 1) <==> !RejoinedByRoot(src, ids, j)) {
      CopyIsSoundIff(src, rids, ids, m, j);
      RejoinedIffByRoot(src, ids, j);
    }
    forall t | t in m.tracks ensures 1 <= t <= |ids| {
      CopyAt(src, rids, ids, m, |ids|, t);
    }
    if AllSound(m) {
      forall j: nat | j < |ids| ensures !RejoinedByRoot(src, ids, j) {
        CopyIsSoundIff(src, rids, ids, m, j);
        RejoinedIffByRoot(src, ids, j);
        assert SoundTrack(m, j + 1);
      }
    } else {
      var t :| t in m.tracks && !SoundTrack(m, t);
      assert RejoinedByRoot(src, ids, t - 1);
    }
  }

  /** A mirror has no revision number twice in a chain, and is a sound node in its own right exactly
      when nothing in it was rejoined by root. */
  lemma MirrorIsSoundIff(src: Db, render: Render)
    requires Mirrorable(src, render) && DistinctRevisions(src)
    ensures var m, ids := MirrorOf(src, render), AllTracks(src);
            && WellKept(m) && IndexHolds(m) && DistinctRevisions(m)
            && (Sound(m) <==> forall j: nat :: j < |ids| ==> !RejoinedByRoot(src, ids, j))
  {
    var m, rids, ids := MirrorOf(src, render), AllReleases(src), AllTracks(src);
    MirrorRows(src, render);
    MirrorIsExportable(src, render);
    hide MirrorOf, AllTracks, AllReleases, RowsCopied, RejoinedByRoot, WellKept, AllSound, DistinctRevisions,
         IndexHolds, Ascending;
    MirrorNumbers(src, rids, ids, m);
    MirrorChainsIff(src, rids, ids, m);
  }

  // -- A number twice ----------------------------------------------------------------------------

  /** A dump of another node's revisions of the same track: the first, and a third whose parent is
      withdrawn there. */
  function OthersRevisions(): seq<Line> {
    [ReleaseLine(1, OSHASH, None, 0), OfTrack(TrackLineOf(1, Revision(1, false))),
     OfTrack(TrackLineOf(3, Revision(3, false).(body := "bbb")))]
  }

  lemma FirstIsHeld(d: Db)
    requires d == Revisions(3, {})
    ensures WellKept(d) && 1 in d.tracks && 1 in d.releases &&
            FindIdenticalTrack(d, 1, "en", Revision(1, false).body) == 1
    ensures FindIdenticalTrack(d, 1, "en", "bbb") == 0 && d.nextTrack == 4 && 3 in d.tracks
    ensures d.tracks[3].root == 1 && d.tracks[3].revision == 3 && d.tracks[3].Live() && d.tracks[1].root == 1
    ensures SetKind(d, 1, "default", None) == d
  {
    RevisionsAreKept(3, {});
    hide WellKept;
    Reimport.FindIs(d, 1, "en", Revision(1, false).body, 1);
    Reimport.FoundIsLowest(d, 1, "en", "bbb");
    hide IdenticalFrom;
    assert SetKind(d, 1, "default", None).tracks == d.tracks;
    forall t | t in d.tracks ensures !Says(d.tracks[t], 1, "en", "bbb") {
      assert d.tracks[t].body[0] == 'a';
    }
  }

  lemma OthersArrive(d: Db)
    requires d == Revisions(3, {})
    ensures var s := Import(Begin(d), OthersRevisions(), Verbatim);
            && s.1.None? && 3 in s.0.db.tracks && 4 in s.0.db.tracks
            && s.0.db.tracks[3].Live() && s.0.db.tracks[4].Live() && SameRevision(s.0.db.tracks[3], s.0.db.tracks[4])
  {
    var lines := OthersRevisions();
    FirstIsHeld(d);
    OshashIsCanonical();
    Reimport.ReleaseIsFound(d, OSHASH, None, 0, 1);
    hide Revisions, IdenticalFrom, ParseOshash, WellKept, GetOrCreateRelease;
    var s0 := Begin(d);
    var s1 := s0.(releaseIds := map[1 := 1], stats := s0.stats.(releases := 1));
    assert LineStep(s0, lines[0], Verbatim) == Success(s1);
    var first := TrackLineOf(1, Revision(1, false));
    Reimport.FoundStep(s1, first, Verbatim, 1);
    var s2 := TrackStep(s1, first, Verbatim).value;
    assert s2.db == d && s2.trackIds == map[1 := 1] && s2.trackRoots == map[1 := 1];
    NewTextStep(s2, 3, Revision(3, false).(body := "bbb"), 1, Verbatim);
    assert lines[1..][1..][1..] == [];
  }

  /** A node with revisions of its own, sound before, then has a revision number twice, both up. */
  lemma NumbersCanRepeat(d: Db)
    requires d == Revisions(3, {})
    ensures Sound(d)
    ensures var (s, stop) := Import(Begin(d), OthersRevisions(), Verbatim); stop.None? && !DistinctRevisions(s.db)
  {
    RevisionsAreMirrorable(3, {});
    OthersArrive(d);
    hide Import, Revisions, SameRevision;
  }
}
