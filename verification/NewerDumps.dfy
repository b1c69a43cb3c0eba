/** Mirrors that import one dump after another of a node: what they hold after any number of them, and
    exactly when an import stops.
 */
module NewerDumps {
  import opened Wrappers
  import opened Catalogue
  import opened Uploads
  import opened Twins
  import opened Dumps
  import opened Imports
  import opened Mirroring
  import opened MirroredChains
  import opened NewerLines

  // -- The tracks of a dump --------------------------------------------------------------

  predicate AllIn(b: Db, ids: seq<int>) {
    forall i :: 0 <= i < |ids| ==> ids[i] in b.tracks
  }

  /** The book after the tracks from the j-th on, as far as the first contested one; whether it was all
      of them, and how far it came. */
  function EnterFrom(k: Book, b: Db, ids: seq<int>, j: nat): (Book, bool, nat)
    requires AllIn(b, ids) && j <= |ids|
    decreases |ids| - j
  {
    if j == |ids| then (k, true, j)
    else if Contested(k, b, ids, ids[j]) then (k, false, j)
    else EnterFrom(Entered(k, b, ids, ids[j]), b, ids, j + 1)
  }

  ghost predicate IsLines(b: Db, ids: seq<int>, lines: seq<Line>) {
    |lines| == |ids| && forall i :: 0 <= i < |ids| ==>
      ids[i] in b.tracks && lines[i] == OfTrack(TrackLineOf(ids[i], b.tracks[ids[i]]))
  }

  lemma LineAt(b: Db, ids: seq<int>, lines: seq<Line>, i: nat)
    requires IsLines(b, ids, lines) && i < |ids|
    ensures |lines| == |ids| && ids[i] in b.tracks && lines[i] == OfTrack(TrackLineOf(ids[i], b.tracks[ids[i]]))
  {
  }

  /** The pass over the tracks is the pass over the book. */
  lemma {:induction false} TracksAreEntered(s: Pass, b: Db, k: Book, origin: map<int, int>, ids: seq<int>,
                                            lines: seq<Line>, j: nat, render: Render)
    returns (more: map<int, int>)
    requires NewerDump(b, render, ids) && IsLines(b, ids, lines) && AllIn(b, ids) && j <= |ids| == |lines|
    requires Between(s, b, k, origin, ids, j)
    ensures var (k', whole, n) := EnterFrom(k, b, ids, j);
            var (s', stop) := Import(s, lines[j..], render);
            && j <= n <= |ids| && Between(s', b, k', more, ids, n)
            && stop == if whole then None else Some(StoreRefused)
    decreases |ids| - j
  {
    hide NewerDump, Between, Contested, Entered, LineStep;
    more := origin;
    var rest := lines[j..];
    if j == |ids| {
      assert rest == [];
    } else {
      assert rest[0] == lines[j] && rest[1..] == lines[j + 1..];
      LineAt(b, ids, lines, j);
      hide IsLines, AllIn;
      more := LineIsEntered(s, b, k, origin, ids, j, render);
      if !Contested(k, b, ids, ids[j]) {
        var s' := LineStep(s, lines[j], render).value;
        more := TracksAreEntered(s', b, Entered(k, b, ids, ids[j]), more, ids, lines, j + 1, render);
      } else {
        more := origin;
      }
    }
  }

  // -- The releases of the dump -----------------------------------------------------

  /** The tables of `m` with more releases, all up; those of the dump so far are known. */
  ghost predicate ReleasesMatched(s: Pass, m: Db, b: Db, rids: seq<int>, k: nat)
    requires k <= |rids| && ReleasesListed(b, rids)
  {
    && WellKept(s.db) && s.db.tracks == m.tracks && s.trackIds == map[] && s.trackRoots == map[]
    && (forall r :: r in m.releases ==> r in s.db.releases && s.db.releases[r] == m.releases[r])
    && AllUp(s.db)
    && (forall i :: 0 <= i < k ==> rids[i] in s.releaseIds && ReleaseKnown(s, b, rids[i]))
  }

  /** What the line of an up release does where all releases are up. */
  ghost predicate ReleaseTaken(s: Pass, id: int, row: ReleaseRow, s': Pass) {
    && WellKept(s'.db) && s'.db.tracks == s.db.tracks && s'.trackIds == s.trackIds && s'.trackRoots == s.trackRoots
    && (forall r :: r in s.db.releases ==> r in s'.db.releases && s'.db.releases[r] == s.db.releases[r])
    && AllUp(s'.db)
    && id in s'.releaseIds && s'.releaseIds == s.releaseIds[id := s'.releaseIds[id]]
    && s'.releaseIds[id] != 0 && s'.releaseIds[id] in s'.db.releases
    && s'.db.releases[s'.releaseIds[id]].oshash == row.oshash
  }

  lemma ReleaseLineTaken(s: Pass, id: int, row: ReleaseRow, render: Render)
    requires WellKept(s.db) && AllUp(s.db)
    requires row.withdrawn.None? && ParseOshash(row.oshash) == Some(row.oshash)
    ensures var r := LineStep(s, ReleaseLineOf(id, row), render); r.Success? && ReleaseTaken(s, id, row, r.value)
  {
    hide ParseOshash, PHashing.Parse, PHashing.ToString, WellKept;
    PrintedParses(row.phash);
    GetOrCreateReleaseFinds(s.db, row.oshash, row.phash, row.durationMs);
    ReleaseIdIsNotZero(GetOrCreateRelease(s.db, row.oshash, row.phash, row.durationMs).0);
    hide GetOrCreateRelease;
  }

  lemma ReleaseIdIsNotZero(d: Db)
    requires WellKept(d)
    ensures 0 !in d.releases
  {
  }

  lemma MoreReleasesMatched(s: Pass, m: Db, b: Db, rids: seq<int>, k: nat, s': Pass)
    requires ReleasesListed(b, rids) && k < |rids| && ReleasesMatched(s, m, b, rids, k)
    requires ReleaseTaken(s, rids[k], b.releases[rids[k]], s')
    ensures ReleasesMatched(s', m, b, rids, k + 1)
  {
    hide WellKept;
    forall i | 0 <= i < k + 1 ensures rids[i] in s'.releaseIds && ReleaseKnown(s', b, rids[i]) {
      assert i < k ==> ReleaseKnown(s, b, rids[i]);
    }
  }

  lemma {:induction false} NewerReleases(m: Db, b: Db, render: Render, k: nat)
    requires WellKept(m) && AllUp(m)
    requires ReleasesExportable(b) && ReleasesListed(b, AllReleases(b)) && k <= |AllReleases(b)|
    requires forall id :: id in AllReleases(b) ==> id in b.releases && VisibleRelease(b, id)
    ensures var (s, e) := Import(Begin(m), ReleaseLines(b, AllReleases(b))[..k], render);
            e.None? && ReleasesMatched(s, m, b, AllReleases(b), k)
    decreases k
  {
    if k > 0 {
      var rids, lines := AllReleases(b), ReleaseLines(b, AllReleases(b));
      assert rids[k - 1] in rids && lines[k - 1] == ReleaseLineOf(rids[k - 1], b.releases[rids[k - 1]]);
      hide Import, LineStep, AllReleases, WellKept, ReleaseLineOf, ReleaseTaken, ParseOshash, ReleaseLines;
      NewerReleases(m, b, render, k - 1);
      ImportOneMore(Begin(m), lines, k - 1, render);
      var s := Import(Begin(m), lines[..k - 1], render).0;
      ReleaseLineTaken(s, rids[k - 1], b.releases[rids[k - 1]], render);
      MoreReleasesMatched(s, m, b, rids, k - 1, LineStep(s, lines[k - 1], render).value);
    }
  }

  lemma ReleasesAreKnown(s: Pass, m: Db, b: Db)
    requires WellKept(b) && ReleasesListed(b, AllReleases(b)) &&
             ReleasesMatched(s, m, b, AllReleases(b), |AllReleases(b)|)
    ensures ReleasesKnown(s, b)
  {
    Lists(b);
    hide AllReleases, WellKept, Ascending;
    forall r | VisibleRelease(b, r) ensures r in s.releaseIds && ReleaseKnown(s, b, r) {
      var i :| 0 <= i < |AllReleases(b)| && AllReleases(b)[i] == r;
      hide ReleaseKnown;
    }
  }

  // -- One dump --------------------------------------------------------------------------

  /** What a node must be for its dump to be mirrored along with its other dumps. */
  ghost predicate Shown(b: Db, render: Render) {
    Sound(b) && NoTwins(b) && Exportable(b, render)
  }

  /** What the dump makes of the book. */
  function Pages(k: Book, b: Db): (Book, bool, nat) {
    TracksAreIn(b);
    EnterFrom(k, b, AllTracks(b), 0)
  }

  lemma TracksAreIn(b: Db)
    ensures AllIn(b, AllTracks(b)) && Listed(b, AllTracks(b)) && Ascending(AllTracks(b))
    ensures AllVisible(b, AllTracks(b))
    ensures forall id :: id in AllTracks(b) ==> id in b.tracks
  {
    Lists(b);
    AllListed(b);
    hide AllTracks, AllReleases, Ascending;
  }

  lemma ShownIsADump(b: Db, render: Render)
    requires Shown(b, render)
    ensures NewerDump(b, render, AllTracks(b)) && ReleasesExportable(b) && WellKept(b)
  {
    TracksAreIn(b);
    hide AllTracks, AllReleases, Ascending, AllSound, DistinctRevisions, IndexHolds, NoTwins, AllVisible;
  }

  /** With the releases in, the mirror still stands, and the dump's tracks can follow. */
  lemma ReleasesIn(m: Db, b: Db, k: Book, origin: map<int, int>, s: Pass)
    requires Stands(m, b, k, origin) && WellKept(b) && ReleasesListed(b, AllReleases(b))
    requires ReleasesMatched(s, m, b, AllReleases(b), |AllReleases(b)|)
    ensures Between(s, b, k, origin, AllTracks(b), 0)
  {
    hide AllTracks, AllReleases, WellKept, ReleasesKnown, ReleaseKnown, Origins, Booked, AllUp;
    ReleasesAreKnown(s, m, b);
    SameRowsStand(m, s.db, b, origin);
    SameRowsBooked(m, s.db, origin, k);
    assert AllTracks(b)[..0] == [];
  }

  lemma SameRowsStand(m: Db, d: Db, b: Db, origin: map<int, int>)
    requires Origins(m, b, origin) && d.tracks == m.tracks
    requires forall r :: r in m.releases ==> r in d.releases && d.releases[r] == m.releases[r]
    ensures Origins(d, b, origin)
  {
    hide OneRowEach;
    forall x | x in origin ensures RowMatches(d, b, origin, x) {
      assert RowMatches(m, b, origin, x);
    }
  }

  lemma SameRowsBooked(m: Db, d: Db, origin: map<int, int>, k: Book)
    requires Booked(m, origin, k) && d.tracks == m.tracks
    ensures Booked(d, origin, k)
  {
    hide AllHeld;
    forall x | x in origin ensures x in d.tracks && RowBooked(d, origin, k, x) {
      assert RowBooked(m, origin, k, x);
    }
  }

  /** Importing a dump does to a mirror what it does to its book, stops included. */
  lemma DumpIsEntered(m: Db, b: Db, k: Book, origin: map<int, int>, render: Render) returns (more: map<int, int>)
    requires Stands(m, b, k, origin) && Shown(b, render)
    ensures var (k', whole, n) := Pages(k, b);
            var (s, stop) := Import(Begin(m), Dump(b, b), render);
            && n <= |AllTracks(b)| && Between(s, b, k', more, AllTracks(b), n)
            && stop == if whole then None else Some(StoreRefused)
  {
    ShownIsADump(b, render);
    TracksAreIn(b);
    AllListed(b);
    Lists(b);
    var releases, tracks := ReleaseLines(b, AllReleases(b)), TrackLines(b, AllTracks(b));
    assert releases[..|AllReleases(b)|] == releases && tracks[0..] == tracks && IsLines(b, AllTracks(b), tracks);
    assert Dump(b, b) == [MetaLine(FORMAT)] + (releases + tracks);
    StandsIsKept(m, b, k, origin);
    hide AllTracks, AllReleases, NoTwins, TracksExportable, Sound, LineStep, Import, Dump, Stands, Shown, NewerDump,
         ReleasesExportable, Ascending, Between, ReleaseLines, TrackLines, ReleasesMatched, IsLines, EnterFrom, AllIn;
    NewerReleases(m, b, render, |AllReleases(b)|);
    ImportSplits(Begin(m), releases, tracks, render);
    MetaLinePasses(Begin(m), releases + tracks, render);
    var s := Import(Begin(m), releases, render).0;
    ReleasesIn(m, b, k, origin, s);
    more := TracksAreEntered(s, b, k, origin, AllTracks(b), tracks, 0, render);
  }

  lemma StandsIsKept(m: Db, b: Db, k: Book, origin: map<int, int>)
    requires Stands(m, b, k, origin)
    ensures WellKept(m) && AllUp(m)
  {
  }

  // -- Any number of dumps -------------------------------------------------------------------

  /** Dumps of one node, each taken some time after the one before. */
  ghost predicate History(dumps: seq<Db>, render: Render)
    decreases |dumps|
  {
    dumps != [] ==>
      var init, last := dumps[..|dumps| - 1], dumps[|dumps| - 1];
      Shown(last, render) && History(init, render) && (init != [] ==> Grows(init[|init| - 1], last))
  }

  /** A node that imported all of them, each as far as it goes. */
  function MirrorAfter(dumps: seq<Db>, render: Render): Db
    decreases |dumps|
  {
    if dumps == [] then EMPTY
    else
      var last := dumps[|dumps| - 1];
      Import(Begin(MirrorAfter(dumps[..|dumps| - 1], render)), Dump(last, last), render).0.db
  }

  function BookAfter(dumps: seq<Db>): Book
    decreases |dumps|
  {
    if dumps == [] then BLANK else Pages(BookAfter(dumps[..|dumps| - 1]), dumps[|dumps| - 1]).0
  }

  lemma MatchesInGrown(d: Db, a: Db, b: Db, origin: map<int, int>, x: int)
    requires Grows(a, b) && x in origin && RowMatches(d, a, origin, x) && origin[x] in a.tracks
    requires d.tracks[x].supersedes.Some? ==>
               d.tracks[x].supersedes.value in origin && origin[d.tracks[x].supersedes.value] in a.tracks
    ensures RowMatches(d, b, origin, x)
  {
    assert SameShape(a.tracks[origin[x]], b.tracks[origin[x]]);
  }

  /** A mirror of a node is a mirror of what the node grows into. */
  lemma StandsForGrown(d: Db, a: Db, b: Db, k: Book, origin: map<int, int>)
    requires Stands(d, a, k, origin) && Grows(a, b)
    ensures Stands(d, b, k, origin)
  {
    hide WellKept, Booked, OneRowEach, Grows, RowMatches;
    forall x | x in origin ensures RowMatches(d, b, origin, x) {
      MatchesLive(d, a, origin, x);
      if d.tracks[x].supersedes.Some? {
        MatchesLive(d, a, origin, d.tracks[x].supersedes.value);
      }
      MatchesInGrown(d, a, b, origin, x);
    }
  }

  /** After any number of dumps, finished or stopped, the mirror's rows are those of the book: one for
      every track held, saying what it says, with an edge exactly where the book has one, and under
      the row of the track the book says. */
  lemma {:induction false} BooksAreKept(dumps: seq<Db>, b: Db, render: Render) returns (origin: map<int, int>)
    requires History(dumps, render) && (dumps != [] ==> Grows(dumps[|dumps| - 1], b))
    ensures Stands(MirrorAfter(dumps, render), b, BookAfter(dumps), origin)
    decreases |dumps|
  {
    if dumps == [] {
      origin := map[];
      StandsFromNothing(b);
    } else {
      hide Import, Dump, Stands, Shown, Grows, Pages, Between;
      var init, last := dumps[..|dumps| - 1], dumps[|dumps| - 1];
      origin := BooksAreKept(init, last, render);
      origin := DumpIsEntered(MirrorAfter(init, render), last, BookAfter(init), origin, render);
      BetweenStands(Import(Begin(MirrorAfter(init, render)), Dump(last, last), render).0, last, BookAfter(dumps),
          origin,
                    AllTracks(last), Pages(BookAfter(init), last).2);
      StandsForGrown(MirrorAfter(dumps, render), last, b, BookAfter(dumps), origin);
    }
  }

  lemma BetweenStands(s: Pass, b: Db, k: Book, origin: map<int, int>, ids: seq<int>, j: nat)
    requires j <= |ids| && Between(s, b, k, origin, ids, j)
    ensures Stands(s.db, b, k, origin)
  {
  }
}
