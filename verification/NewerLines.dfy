/** A mirror that imports one dump after another of a node, line by line. What it holds is kept in
    a book of the node's own ids, computed from the dumps alone; every line does to the tables what it
    does to the book.
 */
module NewerLines {
  import opened Wrappers
  import opened Catalogue
  import opened Uploads
  import opened Twins
  import opened Dumps
  import opened Imports
  import opened Mirroring
  import opened MirroredChains
  import Reimport

  // -- The book ------------------------------------------------------------------------

  /** The tracks held, each with the one its chain hangs from here, and those of them that have an edge. */
  datatype Book = Book(roots: map<int, int>, edged: set<int>)

  const BLANK := Book(map[], {})

  /** Where a track that is new here hangs: with its parent if that is in the dump, else with its root
      if that is, else on its own. */
  function RootFor(k: Book, b: Db, ids: seq<int>, y: int): int
    requires y in b.tracks
  {
    match b.tracks[y].supersedes
    case None => y
    case Some(p) =>
      if p in ids && p in k.roots then k.roots[p]
      else if b.tracks[y].root in ids && b.tracks[y].root in k.roots then k.roots[b.tracks[y].root]
      else y
  }

  /** Its parent is in the dump. */
  predicate HasParent(b: Db, ids: seq<int>, y: int)
    requires y in b.tracks
  {
    b.tracks[y].supersedes.Some? && b.tracks[y].supersedes.value in ids
  }

  function Entered(k: Book, b: Db, ids: seq<int>, y: int): Book
    requires y in b.tracks
  {
    if y in k.roots then k
    else Book(k.roots[y := RootFor(k, b, ids, y)], k.edged + if HasParent(b, ids, y) then {y} else {})
  }

  /** New here, superseding a track in the dump that something held supersedes already. */
  predicate Contested(k: Book, b: Db, ids: seq<int>, y: int)
    requires y in b.tracks
  {
    y !in k.roots && HasParent(b, ids, y) && HasSuccessor(k, b, b.tracks[y].supersedes.value)
  }

  predicate HasSuccessor(k: Book, b: Db, p: int) {
    exists t :: t in k.edged && Supersedes(b, t, p)
  }

  predicate Supersedes(b: Db, t: int, p: int) {
    t in b.tracks && b.tracks[t].supersedes == Some(p)
  }

  // -- Rows and what they stand for --------------------------------------------------

  /** Row `x` here says what the origin's track `y` says. */
  predicate Matches(d: Db, x: int, b: Db, y: int) {
    && x in d.tracks && d.tracks[x].releaseId in d.releases && y in b.tracks && b.tracks[y].releaseId in b.releases
    && d.releases[d.tracks[x].releaseId].oshash == b.releases[b.tracks[y].releaseId].oshash
    && d.tracks[x].lang == b.tracks[y].lang && d.tracks[x].body == b.tracks[y].body
  }

  /** An edge here is an edge there. */
  predicate EdgeMatches(d: Db, b: Db, origin: map<int, int>, x: int)
    requires x in d.tracks && x in origin && origin[x] in b.tracks
  {
    var edge := d.tracks[x].supersedes;
    edge.Some? ==> edge.value in origin && b.tracks[origin[x]].supersedes == Some(origin[edge.value])
  }

  predicate RowMatches(d: Db, b: Db, origin: map<int, int>, x: int)
    requires x in origin
  {
    Matches(d, x, b, origin[x]) && d.tracks[x].Live() && EdgeMatches(d, b, origin, x)
  }

  /** Some row stands for `y`. */
  ghost predicate Held(origin: map<int, int>, y: int) {
    exists x :: x in origin && origin[x] == y
  }

  ghost predicate OneRowEach(origin: map<int, int>) {
    forall x, z :: x in origin && z in origin && origin[x] == origin[z] ==> x == z
  }

  /** Every row here stands for a track of `b`, one row each. */
  ghost predicate Origins(d: Db, b: Db, origin: map<int, int>) {
    origin.Keys == d.tracks.Keys && OneRowEach(origin) && forall x :: x in origin ==> RowMatches(d, b, origin, x)
  }

  /** The lookup finds the row that stands for the track, if there is one, and nothing else. */
  lemma FindsTheRow(d: Db, b: Db, origin: map<int, int>, y: int, releaseId: int)
    requires WellKept(d) && WellKept(b) && NoTwins(b) && Origins(d, b, origin) && y in b.tracks
    requires releaseId in d.releases && d.releases[releaseId].oshash == b.releases[b.tracks[y].releaseId].oshash
    ensures var x := FindIdenticalTrack(d, releaseId, b.tracks[y].lang, b.tracks[y].body);
            if x != 0 then x in origin && origin[x] == y else forall z :: z in origin ==> origin[z] != y
  {
    var t := b.tracks[y];
    var x := FindIdenticalTrack(d, releaseId, t.lang, t.body);
    Reimport.FoundIsLowest(d, releaseId, t.lang, t.body);
    hide FindIdenticalTrack;
    if x != 0 {
      assert RowMatches(d, b, origin, x);
      assert SaysSame(b.tracks[origin[x]], t);
    } else {
      forall z | z in origin ensures origin[z] != y {
        assert RowMatches(d, b, origin, z);
        assert !Says(d.tracks[z], releaseId, t.lang, t.body);
      }
    }
  }

  // -- Tables and book ---------------------------------------------------------------------

  predicate RowBooked(d: Db, origin: map<int, int>, k: Book, x: int)
    requires x in origin && x in d.tracks
  {
    && origin[x] in k.roots && (d.tracks[x].supersedes.Some? <==> origin[x] in k.edged)
    && d.tracks[x].root in origin && origin[d.tracks[x].root] == k.roots[origin[x]]
  }

  /** The rows are those of the book, with its edges and its roots. */
  ghost predicate Booked(d: Db, origin: map<int, int>, k: Book) {
    RowsBooked(d, origin, k) && AllHeld(origin, k) && k.edged <= k.roots.Keys
  }

  ghost predicate RowsBooked(d: Db, origin: map<int, int>, k: Book) {
    forall x :: x in origin ==> x in d.tracks && RowBooked(d, origin, k, x)
  }

  ghost predicate AllHeld(origin: map<int, int>, k: Book) {
    forall y :: y in k.roots ==> Held(origin, y)
  }

  ghost predicate AllUp(d: Db) {
    forall r :: r in d.releases ==> d.releases[r].withdrawn.None?
  }

  /** The tables are those of a mirror of `b` that holds what the book says. */
  ghost predicate Stands(d: Db, b: Db, k: Book, origin: map<int, int>) {
    WellKept(d) && AllUp(d) && Origins(d, b, origin) && Booked(d, origin, k)
  }

  lemma StandsFromNothing(b: Db)
    ensures Stands(EMPTY, b, BLANK, map[])
  {
  }

  /** Of the tracks listed up to `j`, the pass remembers the row that stands for each, and its root. */
  ghost predicate RowsRemembered(s: Pass, origin: map<int, int>, ids: seq<int>, j: nat)
    requires j <= |ids|
  {
    && s.trackIds.Keys == s.trackRoots.Keys
    && (forall y :: y in s.trackIds <==> y in ids[..j])
    && (forall y :: y in s.trackIds ==> RowRemembered(s, origin, y))
  }

  predicate RowRemembered(s: Pass, origin: map<int, int>, y: int)
    requires y in s.trackIds && y in s.trackRoots
  {
    var x := s.trackIds[y];
    x in origin && origin[x] == y && x in s.db.tracks && s.trackRoots[y] == s.db.tracks[x].root
  }

  /** Every release of the newer dump is known here, by its oshash. */
  ghost predicate ReleasesKnown(s: Pass, b: Db) {
    forall r :: VisibleRelease(b, r) ==> r in s.releaseIds && ReleaseKnown(s, b, r)
  }

  predicate ReleaseKnown(s: Pass, b: Db, r: int)
    requires r in s.releaseIds && r in b.releases
  {
    var local := s.releaseIds[r];
    local != 0 && local in s.db.releases && s.db.releases[local].oshash == b.releases[r].oshash
  }

  /** After the dump's releases and its first `j` tracks. */
  ghost predicate Between(s: Pass, b: Db, k: Book, origin: map<int, int>, ids: seq<int>, j: nat)
    requires j <= |ids|
  {
    Stands(s.db, b, k, origin) && ReleasesKnown(s, b) && RowsRemembered(s, origin, ids, j)
  }

  // What a line leaves as it was

  /** The rows of `d` keep their places, and `more` keeps what they stand for. */
  ghost predicate RowsStay(d: Db, d': Db, origin: map<int, int>, more: map<int, int>) {
    && d'.releases == d.releases
    && (forall x :: x in d.tracks ==> x in d'.tracks && d'.tracks[x].root == d.tracks[x].root
                                      && d'.tracks[x].supersedes == d.tracks[x].supersedes)
    && (forall x :: x in origin ==> x in more && more[x] == origin[x])
  }

  lemma ReleasesStayKnown(s: Pass, s': Pass, b: Db)
    requires ReleasesKnown(s, b) && s'.releaseIds == s.releaseIds && s'.db.releases == s.db.releases
    ensures ReleasesKnown(s', b)
  {
  }

  lemma OneMoreRemembered(s: Pass, s': Pass, origin: map<int, int>, more: map<int, int>, ids: seq<int>, j: nat, x: int)
    requires j < |ids| && RowsRemembered(s, origin, ids, j) && RowsStay(s.db, s'.db, origin, more)
    requires x in more && more[x] == ids[j] && x in s'.db.tracks
    requires s'.trackIds == s.trackIds[ids[j] := x] && s'.trackRoots == s.trackRoots[ids[j] := s'.db.tracks[x].root]
    ensures RowsRemembered(s', more, ids, j + 1)
  {
    assert ids[..j + 1] == ids[..j] + [ids[j]];
    forall y | y in s'.trackIds ensures RowRemembered(s', more, y) {
      assert y in s.trackIds ==> RowRemembered(s, origin, y);
    }
  }

  // A line the mirror already holds

  lemma RelabelKeepsOrigins(d: Db, b: Db, origin: map<int, int>, id: int, kind: string, kindLabel: Option<string>)
    requires Origins(d, b, origin)
    ensures Origins(SetKind(d, id, kind, kindLabel), b, origin)
  {
    var d' := SetKind(d, id, kind, kindLabel);
    forall x | x in origin ensures RowMatches(d', b, origin, x) {
      assert RowMatches(d, b, origin, x);
    }
    hide RowMatches, OneRowEach;
  }

  lemma RelabelledRowsStay(d: Db, origin: map<int, int>, id: int, kind: string, kindLabel: Option<string>)
    ensures RowsStay(d, SetKind(d, id, kind, kindLabel), origin, origin)
    ensures SetKind(d, id, kind, kindLabel).tracks.Keys == d.tracks.Keys
  {
  }

  lemma StaysBooked(d: Db, d': Db, origin: map<int, int>, k: Book)
    requires Booked(d, origin, k) && RowsStay(d, d', origin, origin)
    ensures Booked(d', origin, k)
  {
    hide AllHeld;
    forall x | x in origin ensures x in d'.tracks && RowBooked(d', origin, k, x) {
      SameRowBooked(d, d', origin, k, x);
      hide RowBooked;
    }
  }

  lemma SameRowBooked(d: Db, d': Db, origin: map<int, int>, k: Book, x: int)
    requires RowsBooked(d, origin, k) && RowsStay(d, d', origin, origin) && x in origin
    ensures x in d'.tracks && RowBooked(d', origin, k, x)
  {
    assert RowBooked(d, origin, k, x);
  }

  lemma HeldLine(s: Pass, b: Db, k: Book, origin: map<int, int>, ids: seq<int>, j: nat, x: int, s': Pass,
                 kind: string, kindLabel: Option<string>)
    requires j < |ids| && Between(s, b, k, origin, ids, j)
    requires x in origin && origin[x] == ids[j] && x in s.db.tracks
    requires s'.db == SetKind(s.db, x, kind, kindLabel) && s'.releaseIds == s.releaseIds
    requires s'.trackIds == s.trackIds[ids[j] := x] && s'.trackRoots == s.trackRoots[ids[j] := s.db.tracks[x].root]
    ensures Between(s', b, k, origin, ids, j + 1)
  {
    hide WellKept, Origins, Booked, Extends, ReleasesKnown, RowsRemembered, SetKind;
    KindKeepsKept(s.db, x, kind, kindLabel);
    RelabelKeepsOrigins(s.db, b, origin, x, kind, kindLabel);
    RelabelledRowsStay(s.db, origin, x, kind, kindLabel);
    StaysBooked(s.db, s'.db, origin, k);
    ReleasesStayKnown(s, s', b);
    OneMoreRemembered(s, s', origin, origin, ids, j, x);
  }

  // A line the mirror does not hold

  lemma RowKeepsOrigins(d: Db, b: Db, origin: map<int, int>, row: TrackRow, y: int)
    requires WellKept(d) && Origins(d, b, origin) && forall x :: x in origin ==> origin[x] != y
    requires RowMatches(AddRow(d, row), b, origin[d.nextTrack := y], d.nextTrack)
    ensures Origins(AddRow(d, row), b, origin[d.nextTrack := y])
  {
    var d', origin' := AddRow(d, row), origin[d.nextTrack := y];
    assert d.nextTrack !in d.tracks;
    forall x | x in origin' ensures RowMatches(d', b, origin', x) {
      assert x in origin ==> RowMatches(d, b, origin, x);
    }
    hide WellKept, RowMatches;
  }

  lemma AddedRowsStay(d: Db, origin: map<int, int>, row: TrackRow, y: int)
    requires WellKept(d) && origin.Keys == d.tracks.Keys
    ensures RowsStay(d, AddRow(d, row), origin, origin[d.nextTrack := y])
    ensures d.nextTrack !in d.tracks && d.nextTrack >= 1 && d.nextTrack in AddRow(d, row).tracks
    ensures AddRow(d, row).tracks[d.nextTrack] == row
  {
  }

  /** The row of a new track, as the book has it. */
  lemma AddedIsBooked(d: Db, origin: map<int, int>, k: Book, row: TrackRow, b: Db, ids: seq<int>, y: int)
    requires WellKept(d) && Booked(d, origin, k) && origin.Keys == d.tracks.Keys && y in b.tracks && y !in k.roots
    requires row.supersedes.Some? <==> HasParent(b, ids, y)
    requires var more := origin[d.nextTrack := y]; row.root in more && more[row.root] == RootFor(k, b, ids, y)
    ensures Booked(AddRow(d, row), origin[d.nextTrack := y], Entered(k, b, ids, y))
  {
    var d', more, k' := AddRow(d, row), origin[d.nextTrack := y], Entered(k, b, ids, y);
    hide RootFor, HasParent, RowBooked, Held, RowsBooked, AllHeld, WellKept, Entered;
    NextTrackIsFree(d);
    EnteredIs(k, b, ids, y);
    NewRowIsBooked(d, more, k, row, b, ids, y);
    RowsStayBooked(d, d', origin, more, k, k', d.nextTrack, y);
    AllStayHeld(origin, more, k, k', d.nextTrack, y);
  }

  lemma NextTrackIsFree(d: Db)
    requires WellKept(d)
    ensures d.nextTrack !in d.tracks && d.nextTrack >= 1
  {
  }

  lemma RowsStayBooked(d: Db, d': Db, origin: map<int, int>, more: map<int, int>, k: Book, k': Book, n: int, y: int)
    requires RowsBooked(d, origin, k) && n !in origin && more == origin[n := y]
    requires n in d'.tracks && d'.tracks == d.tracks[n := d'.tracks[n]] && RowBooked(d', more, k', n)
    requires y !in k.roots && y in k'.roots && k'.roots == k.roots[y := k'.roots[y]]
    requires forall z :: z != y ==> (z in k'.edged <==> z in k.edged)
    ensures RowsBooked(d', more, k')
  {
    hide RowBooked;
    forall x | x in more ensures x in d'.tracks && RowBooked(d', more, k', x) {
      if x != n {
        assert x in d.tracks && RowBooked(d, origin, k, x);
        OldRowStaysBooked(d, d', origin, more, k, k', x, y);
      }
    }
  }

  lemma AllStayHeld(origin: map<int, int>, more: map<int, int>, k: Book, k': Book, n: int, y: int)
    requires AllHeld(origin, k) && n !in origin && more == origin[n := y]
    requires y in k'.roots && k'.roots == k.roots[y := k'.roots[y]]
    ensures AllHeld(more, k')
  {
    hide Held;
    forall z | z in k'.roots ensures Held(more, z) {
      StaysHeld(origin, more, z);
      RowHolds(more, n);
    }
  }

  lemma EnteredIs(k: Book, b: Db, ids: seq<int>, y: int)
    requires y in b.tracks && y !in k.roots && k.edged <= k.roots.Keys
    ensures var k' := Entered(k, b, ids, y);
            && k'.roots == k.roots[y := RootFor(k, b, ids, y)] && k'.edged <= k'.roots.Keys
            && forall z :: z in k'.edged <==> if z == y then HasParent(b, ids, y) else z in k.edged
  {
    hide RootFor, HasParent;
  }

  lemma NewRowIsBooked(d: Db, more: map<int, int>, k: Book, row: TrackRow, b: Db, ids: seq<int>, y: int)
    requires y in b.tracks && y !in k.roots && y !in k.edged && d.nextTrack in more && more[d.nextTrack] == y
    requires row.supersedes.Some? <==> HasParent(b, ids, y)
    requires row.root in more && more[row.root] == RootFor(k, b, ids, y)
    ensures RowBooked(AddRow(d, row), more, Entered(k, b, ids, y), d.nextTrack)
  {
    hide RootFor, HasParent;
  }

  lemma OldRowStaysBooked(d: Db, d': Db, origin: map<int, int>, more: map<int, int>, k: Book, k': Book, x: int, y: int)
    requires x in origin && x in d.tracks && RowBooked(d, origin, k, x) && x in d'.tracks && d'.tracks[x] == d.tracks[x]
    requires forall z :: z in origin ==> z in more && more[z] == origin[z]
    requires y !in k.roots && forall z :: z in k.roots ==> z in k'.roots && k'.roots[z] == k.roots[z]
    requires forall z :: z != y ==> (z in k'.edged <==> z in k.edged)
    ensures RowBooked(d', more, k', x)
  {
  }

  lemma RowHolds(origin: map<int, int>, x: int)
    requires x in origin
    ensures Held(origin, origin[x])
  {
  }

  lemma StaysHeld(origin: map<int, int>, more: map<int, int>, z: int)
    requires forall x :: x in origin ==> x in more && more[x] == origin[x]
    ensures Held(origin, z) ==> Held(more, z)
  {
    if Held(origin, z) {
      var x :| x in origin && origin[x] == z;
      assert x in more && more[x] == z;
    }
  }

  lemma AddedLine(s: Pass, b: Db, k: Book, origin: map<int, int>, ids: seq<int>, j: nat, row: TrackRow, s': Pass)
    requires j < |ids| && Between(s, b, k, origin, ids, j) && row.releaseId in s.db.releases
    requires ids[j] in b.tracks && !Held(origin, ids[j])
    requires RowMatches(AddRow(s.db, row), b, origin[s.db.nextTrack := ids[j]], s.db.nextTrack)
    requires row.supersedes.Some? <==> HasParent(b, ids, ids[j])
    requires var more := origin[s.db.nextTrack := ids[j]];
             row.root in more && more[row.root] == RootFor(k, b, ids, ids[j])
    requires s'.db == AddRow(s.db, row) && s'.releaseIds == s.releaseIds
    requires s'.trackIds == s.trackIds[ids[j] := s.db.nextTrack] && s'.trackRoots == s.trackRoots[ids[j] := row.root]
    ensures Between(s', b, Entered(k, b, ids, ids[j]), origin[s.db.nextTrack := ids[j]], ids, j + 1)
  {
    hide WellKept, OneRowEach, RowMatches, ReleasesKnown, RowsRemembered, RootFor, HasParent, RowBooked, Held, Entered;
    var x := s.db.nextTrack;
    var more := origin[x := ids[j]];
    KeptAfterInsert(s.db, row);
    NotHeldIsNew(s.db, origin, k, ids[j]);
    RowKeepsOrigins(s.db, b, origin, row, ids[j]);
    AddedRowsStay(s.db, origin, row, ids[j]);
    AddedIsBooked(s.db, origin, k, row, b, ids, ids[j]);
    hide Booked;
    ReleasesStayKnown(s, s', b);
    OneMoreRemembered(s, s', origin, more, ids, j, x);
  }

  lemma NotHeldIsNew(d: Db, origin: map<int, int>, k: Book, y: int)
    requires Booked(d, origin, k)
    ensures Held(origin, y) <==> y in k.roots
    ensures !Held(origin, y) ==> forall x :: x in origin ==> origin[x] != y
  {
    hide RowBooked;
    if x :| x in origin && origin[x] == y {
      RowIsBooked(d, origin, k, x);
    }
  }

  // -- One line of a dump -----------------------------------------------------

  /** What a dump must be, with `ids` its tracks. */
  ghost predicate NewerDump(b: Db, render: Render, ids: seq<int>) {
    && Sound(b) && NoTwins(b) && TracksExportable(b, render)
    && Ascending(ids) && Listed(b, ids) && AllVisible(b, ids)
  }

  lemma BeforeIt(ids: seq<int>, j: nat, y: int)
    requires Ascending(ids) && j < |ids| && y in ids && y < ids[j]
    ensures y in ids[..j]
  {
    var i :| 0 <= i < |ids| && ids[i] == y;
    assert i < j;
    assert ids[..j][i] == y;
  }

  /** The row that stands for `y`, remembered with its root. */
  lemma RootRemembered(s: Pass, b: Db, k: Book, origin: map<int, int>, ids: seq<int>, j: nat, y: int)
    requires j <= |ids| && Between(s, b, k, origin, ids, j) && y in s.trackIds
    ensures y in s.trackRoots && RowRemembered(s, origin, y) && y in k.roots
    ensures s.trackRoots[y] in origin && origin[s.trackRoots[y]] == k.roots[y] && s.trackRoots[y] != 0
  {
    hide Origins, ReleasesKnown;
    assert RowRemembered(s, origin, y);
    assert RowBooked(s.db, origin, k, s.trackIds[y]);
    assert s.trackRoots[y] in s.db.tracks;
  }

  /** Of the tracks before the line, the pass remembers those in the dump. */
  lemma RememberedIff(s: Pass, origin: map<int, int>, ids: seq<int>, j: nat, y: int)
    requires j < |ids| && Ascending(ids) && RowsRemembered(s, origin, ids, j) && y < ids[j]
    ensures y in s.trackIds <==> y in ids
    ensures y in s.trackRoots <==> y in ids
  {
    hide RowRemembered;
    if y in ids {
      BeforeIt(ids, j, y);
    }
    assert y in ids[..j] ==> y in ids;
  }

  /** The importer finds the parent and the root the book says. */
  lemma RelinkedTo(s: Pass, b: Db, k: Book, origin: map<int, int>, ids: seq<int>, j: nat, render: Render)
    requires NewerDump(b, render, ids) && j < |ids| && Between(s, b, k, origin, ids, j)
    ensures var t := b.tracks[ids[j]];
            var (parent, root) := Relink(s, TrackLineOf(ids[j], t));
            && (parent.Some? <==> HasParent(b, ids, ids[j]))
            && (parent.Some? ==> parent.value in origin && t.supersedes == Some(origin[parent.value]))
            && (if root == 0 then RootFor(k, b, ids, ids[j]) == ids[j]
                else root in origin && origin[root] == RootFor(k, b, ids, ids[j]))
  {
    hide NewerDump, ReleasesKnown, Stands, RowsRemembered, Ascending, TrackLineOf;
    OlderThanIt(b, ids, j, render);
    var t := b.tracks[ids[j]];
    LineKeepsLinks(ids[j], t);
    if t.supersedes.Some? {
      var p := t.supersedes.value;
      RememberedIff(s, origin, ids, j, p);
      RememberedIff(s, origin, ids, j, t.root);
      if p in ids {
        RootRemembered(s, b, k, origin, ids, j, p);
      } else if t.root in ids {
        RootRemembered(s, b, k, origin, ids, j, t.root);
      }
    }
  }

  lemma LineKeepsLinks(id: int, t: TrackRow)
    ensures TrackLineOf(id, t).supersedes == t.supersedes && TrackLineOf(id, t).root == t.root
  {
  }

  /** A revision comes after what it revises and after its root. */
  lemma OlderThanIt(b: Db, ids: seq<int>, j: nat, render: Render)
    requires NewerDump(b, render, ids) && j < |ids|
    ensures Ascending(ids) && ids[j] in b.tracks
    ensures var t := b.tracks[ids[j]]; t.supersedes.Some? ==> t.supersedes.value < ids[j] && t.root < ids[j]
  {
    RootIsOldest(b, ids[j]);
    assert SoundTrack(b, ids[j]);
    hide WellKept, AllSound, IndexHolds, DistinctRevisions, NoTwins, AllVisible, TracksExportable, Ascending;
  }

  /** A new text under a known release: created, or refused for its parent's sake. */
  lemma NewTextStep(s: Pass, id: int, t: TrackRow, local: int, render: Render)
    requires t.releaseId in s.releaseIds && s.releaseIds[t.releaseId] == local != 0 && local in s.db.releases
    requires render(t.body) == Some(t.body) && FindIdenticalTrack(s.db, local, t.lang, t.body) == 0
    requires var parent := Relink(s, TrackLineOf(id, t)).0; parent.Some? ==> parent.value in s.db.tracks
    ensures var line := TrackLineOf(id, t);
            var (parent, joint) := Relink(s, line);
            var row := Numbered(RowOf(line, local, t.body, parent, joint), s.db.nextTrack);
            LineStep(s, OfTrack(line), render) ==
            if parent.Some? && Superseded(s.db, parent.value) then Failure(StoreRefused)
            else Success(Grown(s, id, row, row.root))
  {
    hide FindIdenticalTrack, Relink, Superseded;
  }

  lemma NewerRowMatches(s: Pass, b: Db, origin: map<int, int>, y: int, local: int, parent: Option<int>, joint: int)
    requires WellKept(s.db) && Origins(s.db, b, origin) && y in b.tracks && b.tracks[y].releaseId in b.releases
    requires local in s.db.releases && s.db.releases[local].oshash == b.releases[b.tracks[y].releaseId].oshash
    requires parent.Some? ==> parent.value in origin && b.tracks[y].supersedes == Some(origin[parent.value])
    ensures var t := b.tracks[y];
            var row := Numbered(RowOf(TrackLineOf(y, t), local, t.body, parent, joint), s.db.nextTrack);
            && RowMatches(AddRow(s.db, row), b, origin[s.db.nextTrack := y], s.db.nextTrack)
            && row.releaseId == local && row.supersedes == parent
            && row.root == if joint != 0 then joint else s.db.nextTrack
  {
    assert s.db.nextTrack !in s.db.tracks;
    hide WellKept, Origins;
  }

  lemma SameRow(origin: map<int, int>, x: int, z: int)
    requires OneRowEach(origin) && x in origin && z in origin && origin[x] == origin[z]
    ensures x == z
  {
  }

  lemma MatchesLive(d: Db, b: Db, origin: map<int, int>, x: int)
    requires Origins(d, b, origin) && x in d.tracks
    ensures x in origin && origin[x] in b.tracks && d.tracks[x].Live() && EdgeMatches(d, b, origin, x)
  {
    assert x in origin && RowMatches(d, b, origin, x);
  }

  lemma SuccessorIsBooked(d: Db, b: Db, k: Book, origin: map<int, int>, v: int, x: int)
    requires Origins(d, b, origin) && Booked(d, origin, k)
    requires v in origin && x in d.tracks && d.tracks[x].supersedes == Some(v)
    ensures x in origin && origin[x] in k.edged && origin[x] in b.tracks
    ensures b.tracks[origin[x]].supersedes == Some(origin[v])
  {
    hide OneRowEach, RowMatches, Held;
    MatchesLive(d, b, origin, x);
    assert RowBooked(d, origin, k, x);
  }

  lemma RowOfTrack(d: Db, origin: map<int, int>, k: Book, t: int) returns (x: int)
    requires Booked(d, origin, k) && t in k.roots
    ensures x in origin && origin[x] == t && x in d.tracks && d.tracks[x].root in origin
    ensures d.tracks[x].supersedes.Some? <==> t in k.edged
    ensures origin[d.tracks[x].root] == k.roots[t]
  {
    hide RowBooked;
    assert Held(origin, t);
    x :| x in origin && origin[x] == t;
    hide AllHeld, Held;
    RowIsBooked(d, origin, k, x);
  }

  lemma RowIsBooked(d: Db, origin: map<int, int>, k: Book, x: int)
    requires RowsBooked(d, origin, k) && x in origin
    ensures x in d.tracks && origin[x] in k.roots && (d.tracks[x].supersedes.Some? <==> origin[x] in k.edged)
    ensures d.tracks[x].root in origin && origin[d.tracks[x].root] == k.roots[origin[x]]
  {
    assert RowBooked(d, origin, k, x);
  }

  lemma BookedSuccessor(d: Db, b: Db, k: Book, origin: map<int, int>, v: int, t: int) returns (x: int)
    requires Origins(d, b, origin) && Booked(d, origin, k) && v in origin
    requires t in k.edged && t in b.tracks && b.tracks[t].supersedes == Some(origin[v])
    ensures x in d.tracks && d.tracks[x].Live() && d.tracks[x].supersedes == Some(v)
  {
    x := RowOfTrack(d, origin, k, t);
    hide OneRowEach, RowMatches, Booked, RowBooked;
    MatchesLive(d, b, origin, x);
    SameRow(origin, d.tracks[x].supersedes.value, v);
  }

  /** The parent of the line, as it is here, has a live successor exactly when the book has one. */
  lemma TakenParentIff(d: Db, b: Db, k: Book, origin: map<int, int>, v: int)
    requires Origins(d, b, origin) && Booked(d, origin, k) && v in origin
    ensures Superseded(d, v) <==> HasSuccessor(k, b, origin[v])
  {
    hide Origins, Booked;
    if x :| x in d.tracks && d.tracks[x].Live() && d.tracks[x].supersedes == Some(v) {
      SuccessorIsBooked(d, b, k, origin, v, x);
      assert Supersedes(b, origin[x], origin[v]);
    }
    if t :| t in k.edged && Supersedes(b, t, origin[v]) {
      var x := BookedSuccessor(d, b, k, origin, v, t);
      assert Superseded(d, v);
    }
  }

  /** A line does to the tables what it does to the book, and is refused exactly when the book says so. */
  lemma LineIsEntered(s: Pass, b: Db, k: Book, origin: map<int, int>, ids: seq<int>, j: nat, render: Render)
    returns (more: map<int, int>)
    requires NewerDump(b, render, ids) && j < |ids| && ids[j] in b.tracks && Between(s, b, k, origin, ids, j)
    ensures var r := LineStep(s, OfTrack(TrackLineOf(ids[j], b.tracks[ids[j]])), render);
            if Contested(k, b, ids, ids[j]) then r == Failure(StoreRefused)
            else r.Success? && Between(r.value, b, Entered(k, b, ids, ids[j]), more, ids, j + 1)
  {
    NotHeldIsNew(s.db, origin, k, ids[j]);
    more := origin;
    if Held(origin, ids[j]) {
      hide NewerDump, Between, LineStep, TrackLineOf, HasParent;
      HeldLineIsEntered(s, b, k, origin, ids, j, render);
    } else {
      more := origin[s.db.nextTrack := ids[j]];
      hide NewerDump, Between, LineStep, TrackLineOf, Contested, Entered;
      NewLineIsEntered(s, b, k, origin, ids, j, render);
    }
  }

  /** The line's release is known here and its text is as rendered. */
  lemma LineIsFit(s: Pass, b: Db, ids: seq<int>, j: nat, render: Render)
    requires NewerDump(b, render, ids) && j < |ids| && ReleasesKnown(s, b)
    ensures var t := b.tracks[ids[j]];
            && t.releaseId in b.releases && t.releaseId in s.releaseIds && ReleaseKnown(s, b, t.releaseId)
            && render(t.body) == Some(t.body) && WellKept(b) && NoTwins(b)
  {
    assert VisibleTrack(b, ids[j]);
    hide AllSound, DistinctRevisions, IndexHolds;
  }

  /** A pass that found the row and corrected its kind. */
  function Relabelled(s: Pass, id: int, x: int, kind: string, kindLabel: Option<string>): Pass
    requires x in s.db.tracks
  {
    s.(db := SetKind(s.db, x, kind, kindLabel), trackIds := s.trackIds[id := x],
       trackRoots := s.trackRoots[id := s.db.tracks[x].root], stats := s.stats.(duplicate := s.stats.duplicate + 1))
  }

  lemma HeldTextStep(s: Pass, id: int, t: TrackRow, local: int, x: int, render: Render)
    requires t.releaseId in s.releaseIds && s.releaseIds[t.releaseId] == local != 0 && render(t.body) == Some(t.body)
    requires x != 0 && x in s.db.tracks && x == FindIdenticalTrack(s.db, local, t.lang, t.body)
    ensures LineStep(s, OfTrack(TrackLineOf(id, t)), render) ==
            Success(Relabelled(s, id, x, KindOf(TrackLineOf(id, t)), t.kindLabel))
  {
    Reimport.FoundStep(s, TrackLineOf(id, t), render, x);
    hide TrackStep, FindIdenticalTrack, KindOf;
  }

  lemma HeldLineIsEntered(s: Pass, b: Db, k: Book, origin: map<int, int>, ids: seq<int>, j: nat, render: Render)
    requires NewerDump(b, render, ids) && j < |ids| && ids[j] in b.tracks && Between(s, b, k, origin, ids, j)
    requires Held(origin, ids[j])
    ensures var r := LineStep(s, OfTrack(TrackLineOf(ids[j], b.tracks[ids[j]])), render);
            r.Success? && Between(r.value, b, k, origin, ids, j + 1)
  {
    hide WellKept, NewerDump, NoTwins, OneRowEach, Booked, FindIdenticalTrack, RowMatches, RowRemembered,
         RowsRemembered, ReleasesKnown, LineStep, TrackLineOf, KindOf, SetKind;
    var y := ids[j];
    var t := b.tracks[y];
    LineIsFit(s, b, ids, j, render);
    var local := s.releaseIds[t.releaseId];
    FindsTheRow(s.db, b, origin, y, local);
    var x := FindIdenticalTrack(s.db, local, t.lang, t.body);
    HeldTextStep(s, y, t, local, x, render);
    var kind := KindOf(TrackLineOf(y, t));
    hide Between, Held;
    HeldLine(s, b, k, origin, ids, j, x, Relabelled(s, y, x, kind, t.kindLabel), kind, t.kindLabel);
  }

  lemma NewLineIsEntered(s: Pass, b: Db, k: Book, origin: map<int, int>, ids: seq<int>, j: nat, render: Render)
    requires NewerDump(b, render, ids) && j < |ids| && ids[j] in b.tracks && Between(s, b, k, origin, ids, j)
    requires !Held(origin, ids[j])
    ensures var r := LineStep(s, OfTrack(TrackLineOf(ids[j], b.tracks[ids[j]])), render);
            if Contested(k, b, ids, ids[j]) then r == Failure(StoreRefused)
            else r.Success? && Between(r.value, b, Entered(k, b, ids, ids[j]), origin[s.db.nextTrack := ids[j]], ids,
                j + 1)
  {
    hide WellKept, NewerDump, NoTwins, OneRowEach, Booked, FindIdenticalTrack, Relink, TrackLineOf, RowMatches,
         Superseded, LineStep, RowOf, RowRemembered, RowsRemembered, ReleasesKnown, Entered, RootFor, Numbered, Grown,
         HasParent, HasSuccessor, AddRow;
    var y := ids[j];
    var t := b.tracks[y];
    LineIsFit(s, b, ids, j, render);
    var local := s.releaseIds[t.releaseId];
    FindsTheRow(s.db, b, origin, y, local);
    hide Held;
    NotHeldIsNew(s.db, origin, k, y);
    RelinkedTo(s, b, k, origin, ids, j, render);
    var (parent, joint) := Relink(s, TrackLineOf(y, t));
    if parent.Some? {
      TakenParentIff(s.db, b, k, origin, parent.value);
    }
    var row := Numbered(RowOf(TrackLineOf(y, t), local, t.body, parent, joint), s.db.nextTrack);
    NewTextStep(s, y, t, local, render);
    NewerRowMatches(s, b, origin, y, local, parent, joint);
    RootHasItsRow(s.db, origin, y, joint);
    hide Between;
    if !Contested(k, b, ids, y) {
      hide Contested;
      GrownIs(s, y, row, row.root);
      AddedLine(s, b, k, origin, ids, j, row, Grown(s, y, row, row.root));
    }
  }

  lemma GrownIs(s: Pass, id: int, row: TrackRow, root: int)
    ensures var s' := Grown(s, id, row, root);
            && s'.db == AddRow(s.db, row) && s'.releaseIds == s.releaseIds
            && s'.trackIds == s.trackIds[id := s.db.nextTrack] && s'.trackRoots == s.trackRoots[id := root]
  {
  }

  lemma RootHasItsRow(d: Db, origin: map<int, int>, y: int, joint: int)
    requires WellKept(d) && origin.Keys == d.tracks.Keys && (joint != 0 ==> joint in origin)
    ensures var more := origin[d.nextTrack := y];
            var root := if joint != 0 then joint else d.nextTrack;
            root in more && more[root] == if joint != 0 then origin[joint] else y
  {
    assert d.nextTrack !in d.tracks;
  }
}
