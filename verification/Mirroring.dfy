/** A dump imported into an empty node is a copy of what the origin showed: the k-th dumped row
    becomes row k, and revision chains are relinked around the rows that were withdrawn.
 */
module Mirroring {
  import opened Wrappers
  import opened PHashing
  import opened Catalogue
  import opened Dumps
  import opened Imports
  import Reimport
  import Twins
  import Uploads

  /** Where `id` stands in `ids`, counting from 1; 0 if it is not there. */
  function Place(ids: seq<int>, id: int): (p: nat)
    ensures p <= |ids| && (p == 0 <==> id !in ids) && (p > 0 ==> ids[p - 1] == id)
  {
    if ids == [] then 0
    else if ids[|ids| - 1] == id then |ids|
    else Place(ids[..|ids| - 1], id)
  }

  lemma PlaceIs(ids: seq<int>, i: nat)
    requires Ascending(ids) && i < |ids|
    ensures Place(ids, ids[i]) == i + 1
  {
  }

  lemma PlaceInPrefix(ids: seq<int>, j: nat, id: int)
    requires Ascending(ids) && j <= |ids|
    ensures Place(ids[..j], id) == if 0 < Place(ids, id) <= j then Place(ids, id) else 0
    ensures j < |ids| && id < ids[j] ==> Place(ids[..j], id) == Place(ids, id)
  {
    var p, q := Place(ids, id), Place(ids[..j], id);
    assert q > 0 ==> ids[q - 1] == id;
    assert 0 < p <= j ==> ids[..j][p - 1] == id;
  }

  // -- What the copy looks like -------------------------------------------------

  ghost predicate Listed(src: Db, ids: seq<int>) {
    forall i :: 0 <= i < |ids| ==> ids[i] in src.tracks
  }

  ghost predicate ReleasesListed(src: Db, rids: seq<int>) {
    forall i :: 0 <= i < |rids| ==> rids[i] in src.releases
  }

  /** The lists of a dump: in order, each row once, and visible. */
  lemma Lists(src: Db)
    ensures Ascending(AllReleases(src)) && ReleasesListed(src, AllReleases(src))
    ensures Ascending(AllTracks(src)) && Listed(src, AllTracks(src))
    ensures forall i :: 0 <= i < |AllReleases(src)| ==> VisibleRelease(src, AllReleases(src)[i])
    ensures forall i :: 0 <= i < |AllTracks(src)| ==> VisibleTrack(src, AllTracks(src)[i])
    ensures WellKept(src) ==> forall id :: VisibleRelease(src, id) ==> id in AllReleases(src)
  {
    AllListed(src);
    hide AllReleases, AllTracks;
    assert forall i :: 0 <= i < |AllReleases(src)| ==> AllReleases(src)[i] in AllReleases(src);
    assert forall i :: 0 <= i < |AllTracks(src)| ==> AllTracks(src)[i] in AllTracks(src);
  }

  /** The parent of the j-th dumped track among those before it. */
  function ParentPlace(src: Db, ids: seq<int>, j: nat): nat
    requires Listed(src, ids) && j < |ids|
  {
    match src.tracks[ids[j]].supersedes
    case None => 0
    case Some(p) => Place(ids[..j], p)
  }

  /** Where the chain of the j-th dumped track is rejoined: at its parent, else at its root; 0 if the
      track starts a chain. */
  function Joint(src: Db, ids: seq<int>, j: nat): (k: nat)
    requires Listed(src, ids) && j < |ids|
    ensures k <= j
  {
    if src.tracks[ids[j]].supersedes.None? then 0
    else if ParentPlace(src, ids, j) > 0 then ParentPlace(src, ids, j)
    else Place(ids[..j], src.tracks[ids[j]].root)
  }

  function LocalRoot(src: Db, ids: seq<int>, j: nat): (r: nat)
    requires Listed(src, ids) && j < |ids|
    ensures 1 <= r <= j + 1
    decreases j
  {
    var k := Joint(src, ids, j);
    if k == 0 then j + 1 else LocalRoot(src, ids, k - 1)
  }

  function Shared(authorship: string): string {
    if authorship == "uncredited" || authorship == "" then "shared" else authorship
  }

  /** The copy of the j-th dumped track. */
  function CopyOf(src: Db, rids: seq<int>, ids: seq<int>, j: nat): TrackRow
    requires Listed(src, ids) && j < |ids|
  {
    var t, k := src.tracks[ids[j]], ParentPlace(src, ids, j);
    TrackRow(Place(rids, t.releaseId), t.lang, t.body, t.generated, t.declared, None,
             if t.kind == "" then "default" else t.kind, t.kindLabel, Shared(t.authorship), None,
             LocalRoot(src, ids, j),
             if Joint(src, ids, j) == 0 || t.revision == 0 then 1 else t.revision,
             if k > 0 then Some(k) else None, false)
  }

  /** Oshashes are in their stored form. */
  ghost predicate ReleasesExportable(src: Db) {
    && WellKept(src)
    && (forall r :: VisibleRelease(src, r) ==> ParseOshash(src.releases[r].oshash) == Some(src.releases[r].oshash))
  }

  /** Stored texts are what rendering gives, no two visible tracks of a release say the same in the
      same language, and a revision comes after what it revises. */
  ghost predicate TracksExportable(src: Db, render: Render) {
    && WellKept(src) && IndexHolds(src)
    && (forall t :: VisibleTrack(src, t) ==> render(src.tracks[t].body) == Some(src.tracks[t].body))
    && (forall t :: VisibleTrack(src, t) && src.tracks[t].supersedes.Some? ==> src.tracks[t].supersedes.value < t)
    && (forall t, u :: VisibleTrack(src, t) && VisibleTrack(src, u) ==>
          Twins.SaysSame(src.tracks[t], src.tracks[u]) ==> t == u)
  }

  /** What a node must hold for its dump to be importable. */
  ghost predicate Exportable(src: Db, render: Render) {
    ReleasesExportable(src) && TracksExportable(src, render)
  }

  // -- Releases ------------------------------------------------------------------

  ghost predicate ReleasesCopied(src: Db, rids: seq<int>, s: Pass, k: nat)
    requires k <= |rids| && ReleasesListed(src, rids)
  {
    && s.db.nextRelease == k + 1
    && (forall i :: i in s.db.releases <==> 1 <= i <= k)
    && (forall i :: 1 <= i <= k ==> s.db.releases[i] == src.releases[rids[i - 1]])
    && (forall i :: 0 <= i < k ==> rids[i] in s.releaseIds && s.releaseIds[rids[i]] == i + 1)
    && (forall x :: x in s.releaseIds ==> x in rids[..k])
  }

  ghost predicate NoTracksYet(s: Pass, k: nat) {
    s.db.tracks == map[] && s.db.nextTrack == 1 && s.trackIds == map[] && s.trackRoots == map[] &&
        s.stats == Stats(k, 0, 0, 0, 0)
  }

  lemma FoundRelease(db: Db, oshash: string)
    ensures var r := ReleaseFrom(db, oshash, 1); r != 0 ==> r in db.releases && db.releases[r].oshash == oshash
  {
  }

  lemma OshashIsNew(src: Db, rids: seq<int>, s: Pass, k: nat)
    requires WellKept(src) && Ascending(rids) && ReleasesListed(src, rids) && k < |rids|
    requires ReleasesCopied(src, rids, s, k)
    ensures ReleaseFrom(s.db, src.releases[rids[k]].oshash, 1) == 0
  {
    FoundRelease(s.db, src.releases[rids[k]].oshash);
    AscendingDiffer(rids, k);
    hide ReleaseFrom, Ascending;
    assert forall i :: 1 <= i <= k ==> s.db.releases[i].oshash != src.releases[rids[k]].oshash;
  }

  lemma AscendingDiffer(ids: seq<int>, k: nat)
    requires Ascending(ids) && k < |ids|
    ensures forall i :: 0 <= i < k ==> ids[i] != ids[k]
  {
  }

  /** A dumped fingerprint parses back. */
  lemma PrintedParses(phash: Option<PHash>)
    ensures var text := if phash.Some? then Some(ToString(phash.value)) else None;
            ParsedPhash(text) == phash && (text.Some? ==> Parse(text.value).Some?)
  {
    if phash.Some? {
      TextRoundTrip(phash.value);
    }
    hide Parse, PHashing.ToString;
  }

  function ParsedPhash(text: Option<string>): Option<PHash> {
    if text.Some? then Parse(text.value) else None
  }

  function WithRelease(s: Pass, id: int, row: ReleaseRow): Pass {
    s.(db := s.db.(releases := s.db.releases[s.db.nextRelease := row], nextRelease := s.db.nextRelease + 1),
       releaseIds := s.releaseIds[id := s.db.nextRelease],
       stats := s.stats.(releases := s.stats.releases + 1))
  }

  lemma NewOshashStep(s: Pass, id: int, oshash: string, phash: Option<string>, durationMs: int)
    requires ParseOshash(oshash) == Some(oshash) && (phash.Some? ==> Parse(phash.value).Some?)
    requires ReleaseFrom(s.db, oshash, 1) == 0
    ensures ReleaseStep(s, id, oshash, phash, durationMs) ==
            Success(WithRelease(s, id, ReleaseRow(oshash, ParsedPhash(phash), durationMs, None)))
  {
    hide ParseOshash, Parse, ReleaseFrom;
  }

  lemma NewReleaseStep(s: Pass, id: int, row: ReleaseRow, render: Render)
    requires row.withdrawn.None? && ParseOshash(row.oshash) == Some(row.oshash)
    requires ReleaseFrom(s.db, row.oshash, 1) == 0
    ensures LineStep(s, ReleaseLineOf(id, row), render) == Success(WithRelease(s, id, row))
  {
    hide ParseOshash, Parse, PHashing.ToString, ReleaseFrom, ReleaseStep, ParsedPhash, WithRelease;
    var text := if row.phash.Some? then Some(ToString(row.phash.value)) else None;
    PrintedParses(row.phash);
    NewOshashStep(s, id, row.oshash, text, row.durationMs);
    assert row == ReleaseRow(row.oshash, row.phash, row.durationMs, None);
  }

  lemma CopyRelease(src: Db, render: Render, rids: seq<int>, s: Pass, k: nat)
    requires ReleasesExportable(src) && rids == AllReleases(src) && k < |rids| && ReleasesListed(src, rids)
    requires ReleasesCopied(src, rids, s, k) && NoTracksYet(s, k)
    ensures LineStep(s, ReleaseLineOf(rids[k], src.releases[rids[k]]), render).Success?
    ensures var s' := LineStep(s, ReleaseLineOf(rids[k], src.releases[rids[k]]), render).value;
            ReleasesCopied(src, rids, s', k + 1) && NoTracksYet(s', k + 1)
  {
    Lists(src);
    assert VisibleRelease(src, rids[k]);
    OshashIsNew(src, rids, s, k);
    NewReleaseStep(s, rids[k], src.releases[rids[k]], render);
    AscendingDiffer(rids, k);
    hide LineStep, AllReleases, ParseOshash, ReleaseFrom, ReleasesExportable, Ascending;
    MoreReleasesCopied(src, rids, s, LineStep(s, ReleaseLineOf(rids[k], src.releases[rids[k]]), render).value, k);
    hide ReleasesCopied;
  }

  lemma MoreReleasesCopied(src: Db, rids: seq<int>, s: Pass, s': Pass, k: nat)
    requires k < |rids| && ReleasesListed(src, rids) && ReleasesCopied(src, rids, s, k)
    requires forall i :: 0 <= i < k ==> rids[i] != rids[k]
    requires s'.db.nextRelease == k + 2 && s'.db.releases == s.db.releases[k + 1 := src.releases[rids[k]]]
    requires s'.releaseIds == s.releaseIds[rids[k] := k + 1]
    ensures ReleasesCopied(src, rids, s', k + 1)
  {
    assert rids[..k + 1] == rids[..k] + [rids[k]];
  }

  lemma {:induction false} CopyReleases(src: Db, render: Render, s: Pass, k: nat)
    requires ReleasesExportable(src) && k <= |AllReleases(src)| && s == Begin(EMPTY)
    requires ReleasesListed(src, AllReleases(src))
    ensures var (s', e) := Import(s, ReleaseLines(src, AllReleases(src))[..k], render);
            e.None? && ReleasesCopied(src, AllReleases(src), s', k) && NoTracksYet(s', k)
  {
    if k > 0 {
      var rids, lines := AllReleases(src), ReleaseLines(src, AllReleases(src));
      CopyReleases(src, render, s, k - 1);
      ImportOneMore(s, lines, k - 1, render);
      CopyRelease(src, render, rids, Import(s, lines[..k - 1], render).0, k - 1);
      hide Import, LineStep, AllReleases, ReleasesExportable, ReleasesCopied;
    }
  }

  // -- Tracks --------------------------------------------------------------------

  ghost predicate RowsCopied(src: Db, rids: seq<int>, ids: seq<int>, db: Db, j: nat)
    requires j <= |ids| && Listed(src, ids)
  {
    && db.nextTrack == j + 1
    && (forall i :: i in db.tracks <==> 1 <= i <= j)
    && (forall i :: 1 <= i <= j ==> db.tracks[i] == CopyOf(src, rids, ids, i - 1))
  }

  ghost predicate Remembered(src: Db, ids: seq<int>, s: Pass, j: nat)
    requires j <= |ids| && Listed(src, ids)
  {
    && s.trackIds.Keys == s.trackRoots.Keys
    && (forall x :: x in s.trackIds <==> x in ids[..j])
    && (forall i: nat :: i < j ==> ids[i] in s.trackIds && s.trackIds[ids[i]] == i + 1)
    && (forall i: nat :: i < j ==> ids[i] in s.trackRoots && s.trackRoots[ids[i]] == LocalRoot(src, ids, i))
  }

  ghost predicate TracksCopied(src: Db, rids: seq<int>, ids: seq<int>, s: Pass, j: nat)
    requires j <= |ids| && Listed(src, ids)
  {
    RowsCopied(src, rids, ids, s.db, j) && Remembered(src, ids, s, j) && s.stats == Stats(|rids|, j, 0, 0, 0)
  }

  lemma RememberedAt(src: Db, ids: seq<int>, s: Pass, j: nat, x: int)
    requires j <= |ids| && Listed(src, ids) && Remembered(src, ids, s, j)
    ensures var k := Place(ids[..j], x);
            && (x in s.trackIds <==> k > 0) && (x in s.trackRoots <==> k > 0)
            && (k > 0 ==> s.trackIds[x] == k && s.trackRoots[x] == LocalRoot(src, ids, k - 1))
  {
    var k := Place(ids[..j], x);
    assert k > 0 ==> ids[..j][k - 1] == ids[k - 1];
    hide LocalRoot, Place;
  }

  lemma RelinkIsJoint(src: Db, ids: seq<int>, s: Pass, j: nat)
    requires j < |ids| && Listed(src, ids) && Remembered(src, ids, s, j)
    ensures var (parent, root) := Relink(s, TrackLineOf(ids[j], src.tracks[ids[j]]));
            && parent == (if ParentPlace(src, ids, j) > 0 then Some(ParentPlace(src, ids, j)) else None)
            && root == (if Joint(src, ids, j) == 0 then 0 else LocalRoot(src, ids, Joint(src, ids, j) - 1))
  {
    hide LocalRoot, Place, Remembered;
    var t := src.tracks[ids[j]];
    if t.supersedes.Some? {
      RememberedAt(src, ids, s, j, t.supersedes.value);
      RememberedAt(src, ids, s, j, t.root);
    }
  }

  lemma SamePlaceSameId(ids: seq<int>, x: int, y: int)
    requires x in ids && y in ids && Place(ids, x) == Place(ids, y)
    ensures x == y
  {
  }

  ghost predicate AllVisible(src: Db, ids: seq<int>) {
    forall i :: 0 <= i < |ids| ==> VisibleTrack(src, ids[i])
  }

  /** The j-th dumped track is of a dumped release. */
  predicate Seen(src: Db, rids: seq<int>, ids: seq<int>, j: nat)
    requires Listed(src, ids) && j < |ids|
  {
    src.tracks[ids[j]].releaseId in rids
  }

  /** Copies that say the same are copies of one track. */
  lemma CopiesDiffer(src: Db, render: Render, rids: seq<int>, ids: seq<int>, i: nat, j: nat)
    requires TracksExportable(src, render) && Listed(src, ids) && AllVisible(src, ids) && i < |ids| && j < |ids|
    requires Seen(src, rids, ids, i) && Seen(src, rids, ids, j)
    ensures var t := src.tracks[ids[j]];
            Says(CopyOf(src, rids, ids, i), Place(rids, t.releaseId), t.lang, t.body) ==> ids[i] == ids[j]
  {
    var t, u := src.tracks[ids[i]], src.tracks[ids[j]];
    hide WellKept, IndexHolds, LocalRoot, Joint, ParentPlace, Place, VisibleTrack;
    if Says(CopyOf(src, rids, ids, i), Place(rids, u.releaseId), u.lang, u.body) {
      SamePlaceSameId(rids, t.releaseId, u.releaseId);
      assert Twins.SaysSame(t, u);
    }
  }

  lemma NothingSaysIt(src: Db, render: Render, rids: seq<int>, ids: seq<int>, db: Db, j: nat)
    requires TracksExportable(src, render) && Ascending(ids) && Listed(src, ids) && AllVisible(src, ids) && j < |ids|
    requires RowsCopied(src, rids, ids, db, j) && forall i: nat :: i <= j ==> Seen(src, rids, ids, i)
    ensures var t := src.tracks[ids[j]]; FindIdenticalTrack(db, Place(rids, t.releaseId), t.lang, t.body) == 0
  {
    var t := src.tracks[ids[j]];
    hide *;
    var found := FindIdenticalTrack(db, Place(rids, t.releaseId), t.lang, t.body);
    Reimport.FoundIsLowest(db, Place(rids, t.releaseId), t.lang, t.body);
    if found != 0 {
      CopyAt(src, rids, ids, db, j, found);
      AscendingDiffer(ids, j);
      CopiesDiffer(src, render, rids, ids, found - 1, j);
    }
  }

  lemma CopyAt(src: Db, rids: seq<int>, ids: seq<int>, db: Db, j: nat, x: int)
    requires j <= |ids| && Listed(src, ids) && RowsCopied(src, rids, ids, db, j) && x in db.tracks
    ensures 1 <= x <= j && db.tracks[x] == CopyOf(src, rids, ids, x - 1)
  {
  }

  /** Copies of live tracks that supersede the same copy are copies of one track. */
  lemma OneSuccessor(src: Db, ids: seq<int>, i: nat, j: nat)
    requires IndexHolds(src) && Listed(src, ids) && i < |ids| && j < |ids|
    requires VisibleTrack(src, ids[i]) && VisibleTrack(src, ids[j])
    requires ParentPlace(src, ids, i) == ParentPlace(src, ids, j) > 0
    ensures ids[i] == ids[j]
  {
    var k := ParentPlace(src, ids, j);
    assert ids[..i][k - 1] == ids[k - 1] == ids[..j][k - 1];
    assert src.tracks[ids[i]].supersedes == src.tracks[ids[j]].supersedes;
  }

  lemma SuccessorsDiffer(src: Db, ids: seq<int>, i: nat, j: nat)
    requires IndexHolds(src) && Listed(src, ids) && i < |ids| && j < |ids|
    requires VisibleTrack(src, ids[i]) && VisibleTrack(src, ids[j]) && ParentPlace(src, ids, j) > 0
    ensures ParentPlace(src, ids, i) == ParentPlace(src, ids, j) ==> ids[i] == ids[j]
  {
    if ParentPlace(src, ids, i) == ParentPlace(src, ids, j) {
      OneSuccessor(src, ids, i, j);
    }
  }

  /** No copy made so far supersedes what the next one does. */
  lemma ParentIsFree(src: Db, rids: seq<int>, ids: seq<int>, db: Db, j: nat)
    requires IndexHolds(src) && Listed(src, ids) && j < |ids| && AllVisible(src, ids)
    requires forall i :: 0 <= i < j ==> ids[i] != ids[j]
    requires RowsCopied(src, rids, ids, db, j) && ParentPlace(src, ids, j) > 0
    ensures !Superseded(db, ParentPlace(src, ids, j))
  {
    hide RowsCopied, AllVisible, IndexHolds, ParentPlace, CopyOf;
    var k := ParentPlace(src, ids, j);
    forall x | x in db.tracks ensures db.tracks[x].supersedes != Some(k) {
      CopyAt(src, rids, ids, db, j, x);
      CopySupersedesElse(src, rids, ids, x - 1, j);
    }
  }

  lemma CopySupersedesElse(src: Db, rids: seq<int>, ids: seq<int>, i: nat, j: nat)
    requires IndexHolds(src) && Listed(src, ids) && i < |ids| && j < |ids| && AllVisible(src, ids)
    requires ids[i] != ids[j] && ParentPlace(src, ids, j) > 0
    ensures CopyOf(src, rids, ids, i).supersedes != Some(ParentPlace(src, ids, j))
  {
    hide ParentPlace, LocalRoot, Place, Joint, IndexHolds;
    SuccessorsDiffer(src, ids, i, j);
  }

  /** The row the importer builds is the copy. */
  lemma RowIsCopy(src: Db, rids: seq<int>, ids: seq<int>, j: nat)
    requires Listed(src, ids) && j < |ids|
    ensures var t := src.tracks[ids[j]];
            var parent := if ParentPlace(src, ids, j) > 0 then Some(ParentPlace(src, ids, j)) else None;
            var root := if Joint(src, ids, j) == 0 then 0 else LocalRoot(src, ids, Joint(src, ids, j) - 1);
            var row := RowOf(TrackLineOf(ids[j], t), Place(rids, t.releaseId), t.body, parent, root);
            && CopyOf(src, rids, ids, j) == Numbered(row, j + 1)
            && LocalRoot(src, ids, j) == if root != 0 then root else j + 1
  {
    hide Place;
  }

  function Numbered(row: TrackRow, id: int): TrackRow {
    row.(root := if row.root == 0 then id else row.root, revision := if row.revision == 0 then 1 else row.revision)
  }

  lemma NewTrackStep(s: Pass, t: TrackLine, render: Render, row: TrackRow)
    requires t.releaseId in s.releaseIds && s.releaseIds[t.releaseId] != 0 && render(t.body).Some?
    requires FindIdenticalTrack(s.db, s.releaseIds[t.releaseId], t.lang, render(t.body).value) == 0
    requires row == Numbered(RowOf(t, s.releaseIds[t.releaseId], render(t.body).value, Relink(s, t).0,
             Relink(s, t).1), s.db.nextTrack)
    requires MayInsert(s.db, row)
    ensures LineStep(s, OfTrack(t), render) ==
            Success(Grown(s, t.id, row, if Relink(s, t).1 != 0 then Relink(s, t).1 else s.db.nextTrack))
  {
    hide FindIdenticalTrack, Relink, MayInsert;
  }

  function Grown(s: Pass, id: int, row: TrackRow, root: int): Pass {
    s.(db := AddRow(s.db, row), trackIds := s.trackIds[id := s.db.nextTrack], trackRoots := s.trackRoots[id := root],
       stats := s.stats.(imported := s.stats.imported + 1))
  }

  lemma CopyMayBeInserted(first: Db, src: Db, render: Render, rids: seq<int>, ids: seq<int>, s: Pass, j: nat)
    requires TracksExportable(src, render) && Ascending(ids) && Listed(src, ids) && AllVisible(src, ids) && j < |ids|
    requires ReleasesListed(first, rids) && ReleasesCopied(first, rids, s, |rids|) &&
             RowsCopied(src, rids, ids, s.db, j)
    requires Seen(src, rids, ids, j)
    ensures MayInsert(s.db, CopyOf(src, rids, ids, j))
    ensures var t := src.tracks[ids[j]];
            && t.releaseId in s.releaseIds && s.releaseIds[t.releaseId] == Place(rids, t.releaseId) != 0
            && render(t.body) == Some(t.body)
  {
    assert VisibleTrack(src, ids[j]);
    if ParentPlace(src, ids, j) > 0 {
      AscendingDiffer(ids, j);
      ParentIsFree(src, rids, ids, s.db, j);
    }
    var t := src.tracks[ids[j]];
    hide Superseded, LocalRoot, Ascending, IndexHolds, WellKept;
    var place := Place(rids, t.releaseId);
    assert rids[place - 1] == t.releaseId;
  }

  function WithCopy(src: Db, rids: seq<int>, ids: seq<int>, s: Pass, j: nat): Pass
    requires Listed(src, ids) && j < |ids|
  {
    Grown(s, ids[j], CopyOf(src, rids, ids, j), LocalRoot(src, ids, j))
  }

  /** The line of a track new here, whose row and root are known. */
  lemma KnownRowStep(s: Pass, id: int, t: TrackRow, place: int, render: Render, row: TrackRow, root: int,
                     parent: Option<int>, joint: int)
    requires t.releaseId in s.releaseIds && s.releaseIds[t.releaseId] == place != 0 && render(t.body) == Some(t.body)
    requires FindIdenticalTrack(s.db, place, t.lang, t.body) == 0 && MayInsert(s.db, row)
    requires Relink(s, TrackLineOf(id, t)) == (parent, joint)
    requires row == Numbered(RowOf(TrackLineOf(id, t), place, t.body, parent, joint), s.db.nextTrack)
    requires root == if joint != 0 then joint else s.db.nextTrack
    ensures LineStep(s, OfTrack(TrackLineOf(id, t)), render) == Success(Grown(s, id, row, root))
  {
    hide FindIdenticalTrack, Relink, MayInsert, RowOf, Numbered, LineStep, Grown;
    NewTrackStep(s, TrackLineOf(id, t), render, row);
  }

  lemma CopyLine(first: Db, src: Db, render: Render, rids: seq<int>, ids: seq<int>, s: Pass, j: nat)
    requires TracksExportable(src, render) && Ascending(ids) && Listed(src, ids) && AllVisible(src, ids) && j < |ids|
    requires ReleasesListed(first, rids) && ReleasesCopied(first, rids, s, |rids|) && TracksCopied(src, rids, ids, s, j)
    requires forall i: nat :: i <= j ==> Seen(src, rids, ids, i)
    ensures LineStep(s, OfTrack(TrackLineOf(ids[j], src.tracks[ids[j]])), render) ==
            Success(WithCopy(src, rids, ids, s, j))
  {
    hide FindIdenticalTrack, Relink, TracksExportable, Place, MayInsert, CopyOf, LocalRoot, LineStep, Ascending,
         AllVisible, Remembered, RowOf, Numbered, RowsCopied, ReleasesCopied, Joint, ParentPlace, Grown, TrackLineOf,
         Seen;
    var t := src.tracks[ids[j]];
    CopyMayBeInserted(first, src, render, rids, ids, s, j);
    NothingSaysIt(src, render, rids, ids, s.db, j);
    RelinkIsJoint(src, ids, s, j);
    RowIsCopy(src, rids, ids, j);
    NextIs(src, rids, ids, s.db, j);
    var (parent, joint) := Relink(s, TrackLineOf(ids[j], t));
    KnownRowStep(s, ids[j], t, Place(rids, t.releaseId), render, CopyOf(src, rids, ids, j), LocalRoot(src, ids, j),
        parent, joint);
  }

  lemma CopyTrack(first: Db, src: Db, render: Render, rids: seq<int>, ids: seq<int>, s: Pass, j: nat)
    requires TracksExportable(src, render) && Ascending(ids) && Listed(src, ids) && AllVisible(src, ids) && j < |ids|
    requires ReleasesListed(first, rids) && ReleasesCopied(first, rids, s, |rids|) && TracksCopied(src, rids, ids, s, j)
    requires forall i: nat :: i <= j ==> Seen(src, rids, ids, i)
    ensures LineStep(s, OfTrack(TrackLineOf(ids[j], src.tracks[ids[j]])), render) ==
            Success(WithCopy(src, rids, ids, s, j))
    ensures ReleasesCopied(first, rids, WithCopy(src, rids, ids, s, j), |rids|)
    ensures TracksCopied(src, rids, ids, WithCopy(src, rids, ids, s, j), j + 1)
  {
    AscendingDiffer(ids, j);
    CopyLine(first, src, render, rids, ids, s, j);
    NextIs(src, rids, ids, s.db, j);
    hide TracksExportable, Ascending, CopyOf, LocalRoot, LineStep, Remembered, RowsCopied, ReleasesCopied;
    MoreCopied(src, rids, ids, s, WithCopy(src, rids, ids, s, j), j);
    SameReleasesCopied(first, rids, s, WithCopy(src, rids, ids, s, j), |rids|);
  }

  lemma NextIs(src: Db, rids: seq<int>, ids: seq<int>, db: Db, j: nat)
    requires j <= |ids| && Listed(src, ids) && RowsCopied(src, rids, ids, db, j)
    ensures db.nextTrack == j + 1
  {
  }

  lemma SameReleasesCopied(src: Db, rids: seq<int>, s: Pass, s': Pass, k: nat)
    requires k <= |rids| && ReleasesListed(src, rids) && ReleasesCopied(src, rids, s, k)
    requires s'.db.releases == s.db.releases && s'.db.nextRelease == s.db.nextRelease && s'.releaseIds == s.releaseIds
    ensures ReleasesCopied(src, rids, s', k)
  {
  }

  lemma MoreCopied(src: Db, rids: seq<int>, ids: seq<int>, s: Pass, s': Pass, j: nat)
    requires Listed(src, ids) && j < |ids| && TracksCopied(src, rids, ids, s, j)
    requires forall i :: 0 <= i < j ==> ids[i] != ids[j]
    requires s'.db == AddRow(s.db, CopyOf(src, rids, ids, j))
    requires s'.trackIds == s.trackIds[ids[j] := s.db.nextTrack] &&
             s'.trackRoots == s.trackRoots[ids[j] := LocalRoot(src, ids, j)]
    requires s'.stats == s.stats.(imported := s.stats.imported + 1)
    ensures TracksCopied(src, rids, ids, s', j + 1)
  {
    hide CopyOf, LocalRoot;
    MoreRemembered(src, ids, s, s', j) by { hide RowsCopied; }
    hide Remembered;
  }

  lemma MoreRemembered(src: Db, ids: seq<int>, s: Pass, s': Pass, j: nat)
    requires Listed(src, ids) && j < |ids| && Remembered(src, ids, s, j)
    requires forall i :: 0 <= i < j ==> ids[i] != ids[j]
    requires s'.trackIds == s.trackIds[ids[j] := j + 1] &&
             s'.trackRoots == s.trackRoots[ids[j] := LocalRoot(src, ids, j)]
    ensures Remembered(src, ids, s', j + 1)
  {
    hide LocalRoot;
    assert ids[..j + 1] == ids[..j] + [ids[j]];
  }

  lemma {:induction false} CopyTracks(first: Db, src: Db, render: Render, rids: seq<int>, s: Pass, j: nat)
    requires TracksExportable(src, render) && Listed(src, AllTracks(src)) && j <= |AllTracks(src)|
    requires ReleasesListed(first, rids) && ReleasesCopied(first, rids, s, |rids|) && NoTracksYet(s, |rids|)
    requires forall i: nat :: i < j ==> Seen(src, rids, AllTracks(src), i)
    ensures var (s', e) := Import(s, TrackLines(src, AllTracks(src))[..j], render);
            && e.None? && ReleasesCopied(first, rids, s', |rids|)
            && TracksCopied(src, rids, AllTracks(src), s', j)
  {
    if j > 0 {
      var ids, lines := AllTracks(src), TrackLines(src, AllTracks(src));
      Lists(src);
      CopyTracks(first, src, render, rids, s, j - 1);
      ImportOneMore(s, lines, j - 1, render);
      hide Import, LineStep, AllReleases, AllTracks, TracksExportable, ReleasesCopied, TracksCopied, Seen, Ascending;
      CopyTrack(first, src, render, rids, ids, Import(s, lines[..j - 1], render).0, j - 1);
    }
  }

  lemma {:induction false} ImportSplits(s: Pass, xs: seq<Line>, ys: seq<Line>, render: Render)
    requires Import(s, xs, render).1.None?
    ensures Import(s, xs + ys, render) == Import(Import(s, xs, render).0, ys, render)
    decreases xs
  {
    hide LineStep;
    if xs == [] {
      assert xs + ys == ys;
    } else {
      assert (xs + ys)[0] == xs[0] && (xs + ys)[1..] == xs[1..] + ys;
      ImportSplits(LineStep(s, xs[0], render).value, xs[1..], ys, render);
    }
  }

  lemma MetaLinePasses(s: Pass, lines: seq<Line>, render: Render)
    ensures Import(s, [MetaLine(FORMAT)] + lines, render) == Import(s, lines, render)
  {
    assert ([MetaLine(FORMAT)] + lines)[1..] == lines;
  }

  lemma MetaLineFirst(first: Db, second: Db, render: Render)
    ensures Listed(second, AllTracks(second)) && ReleasesListed(first, AllReleases(first))
    ensures forall id :: id in AllReleases(first) ==> id in first.releases
    ensures forall id :: id in AllTracks(second) ==> id in second.tracks
    ensures Import(Begin(EMPTY), Dump(first, second), render) ==
            Import(Begin(EMPTY), ReleaseLines(first, AllReleases(first)) + TrackLines(second, AllTracks(second)),
                render)
  {
    Lists(first);
    Lists(second);
    AllListed(first);
    AllListed(second);
    var releases, tracks := ReleaseLines(first, AllReleases(first)), TrackLines(second, AllTracks(second));
    assert Dump(first, second) == [MetaLine(FORMAT)] + (releases + tracks);
    hide AllReleases, AllTracks, Import, Dump;
    MetaLinePasses(Begin(EMPTY), releases + tracks, render);
  }

  /** What is left of a dump whose releases are in. */
  lemma ReleasesIn(first: Db, second: Db, render: Render) returns (s: Pass)
    requires ReleasesExportable(first)
    ensures Listed(second, AllTracks(second)) && ReleasesListed(first, AllReleases(first))
    ensures forall id :: id in AllTracks(second) ==> id in second.tracks
    ensures ReleasesCopied(first, AllReleases(first), s, |AllReleases(first)|) && NoTracksYet(s, |AllReleases(first)|)
    ensures Import(Begin(EMPTY), Dump(first, second), render) ==
            Import(s, TrackLines(second, AllTracks(second)), render)
  {
    MetaLineFirst(first, second, render);
    var releases, tracks := ReleaseLines(first, AllReleases(first)), TrackLines(second, AllTracks(second));
    assert releases[..|AllReleases(first)|] == releases;
    hide LineStep, AllReleases, AllTracks, ReleasesExportable, ReleasesCopied, Import, Dump, NoTracksYet;
    CopyReleases(first, render, Begin(EMPTY), |AllReleases(first)|);
    ImportSplits(Begin(EMPTY), releases, tracks, render);
    s := Import(Begin(EMPTY), releases, render).0;
  }

  /** Every track the second walk saw is of a release the first walk saw. */
  ghost predicate WalksAgree(first: Db, second: Db) {
    forall t :: VisibleTrack(second, t) ==> VisibleRelease(first, second.tracks[t].releaseId)
  }

  lemma AgreeingIsSeen(first: Db, second: Db, j: nat)
    requires WellKept(first) && Listed(second, AllTracks(second)) && j < |AllTracks(second)|
    ensures Seen(second, AllReleases(first), AllTracks(second), j) <==>
            VisibleRelease(first, second.tracks[AllTracks(second)[j]].releaseId)
  {
    AllListed(first);
    hide AllReleases, AllTracks;
  }

  /** Importing a dump into an empty node, whatever the node that wrote it served between its two
      walks, succeeds and copies every release of the first and every track of the second exactly
      once, renaming ids one to one and keeping everything else: file facts, text, kind, disclosure
      flags, and the supersedes edge wherever the parent was dumped. */
  lemma WalksAreCopied(first: Db, second: Db, render: Render)
    requires ReleasesExportable(first) && TracksExportable(second, render) && WalksAgree(first, second)
    ensures Listed(second, AllTracks(second)) && ReleasesListed(first, AllReleases(first))
    ensures var (s, e) := Import(Begin(EMPTY), Dump(first, second), render);
            && e.None?
            && ReleasesCopied(first, AllReleases(first), s, |AllReleases(first)|)
            && TracksCopied(second, AllReleases(first), AllTracks(second), s, |AllTracks(second)|)
  {
    var s := ReleasesIn(first, second, render);
    Lists(second);
    var tracks := TrackLines(second, AllTracks(second));
    assert tracks[..|AllTracks(second)|] == tracks;
    hide AllReleases, AllTracks, TracksExportable, ReleasesCopied, TracksCopied, Import, Dump, NoTracksYet, Ascending,
         Seen;
    forall i: nat | i < |AllTracks(second)| ensures Seen(second, AllReleases(first), AllTracks(second), i) {
      assert VisibleTrack(second, AllTracks(second)[i]);
      AgreeingIsSeen(first, second, i);
    }
    CopyTracks(first, second, render, AllReleases(first), s, |AllTracks(second)|);
  }

  /** So for the dump of a snapshot. */
  lemma MirrorIsACopy(src: Db, render: Render)
    requires Exportable(src, render)
    ensures Listed(src, AllTracks(src)) && ReleasesListed(src, AllReleases(src))
    ensures var (s, e) := Import(Begin(EMPTY), Dump(src, src), render);
            && e.None?
            && ReleasesCopied(src, AllReleases(src), s, |AllReleases(src)|)
            && TracksCopied(src, AllReleases(src), AllTracks(src), s, |AllTracks(src)|)
  {
    assert WalksAgree(src, src);
    hide ReleasesExportable, TracksExportable, ReleasesCopied, TracksCopied, Import, Dump, AllReleases, AllTracks;
    WalksAreCopied(src, src, render);
  }

  /** Every sound node without twins can be mirrored, given stored texts are fixed by rendering and
      oshashes are in their stored form. */
  lemma SoundNodesExport(src: Db, render: Render)
    requires Uploads.Sound(src) && Twins.NoTwins(src)
    requires forall t :: VisibleTrack(src, t) ==> render(src.tracks[t].body) == Some(src.tracks[t].body)
    ensures TracksExportable(src, render)
    ensures ReleasesExportable(src) ==> Exportable(src, render)
  {
    hide WellKept, IndexHolds, ParseOshash;
    forall t | VisibleTrack(src, t) && src.tracks[t].supersedes.Some? ensures src.tracks[t].supersedes.value < t {
      assert Uploads.SoundTrack(src, t);
    }
  }
}
