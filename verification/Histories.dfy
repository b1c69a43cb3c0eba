/** What the book of a mirror comes to, told from the dumps alone: which tracks are held, which of them
    have an edge, which chains are in one piece, and when an import stops.
 */
module Histories {
  import opened Wrappers
  import opened Catalogue
  import opened Uploads
  import opened Twins
  import opened Dumps
  import opened Imports
  import opened Mirroring
  import opened MirroredChains
  import opened NewerLines
  import opened NewerDumps

  // -- One dump ------------------------------------------------------------------------

  ghost predicate Keeps(k: Book, k': Book) {
    forall y :: y in k.roots ==> y in k'.roots && k'.roots[y] == k.roots[y]
  }

  ghost predicate Gains(k: Book, k': Book, b: Db, ids: seq<int>, added: seq<int>)
    requires AllIn(b, ids) && forall y :: y in added ==> y in ids
  {
    && (forall y :: y in k'.roots <==> y in k.roots || y in added)
    && (forall y :: y in k'.edged <==>
         y in k.edged || (y in added && y !in k.roots && y in b.tracks && HasParent(b, ids, y)))
  }

  /** The tracks reached are held, nothing held moves, and what was new has its edge exactly where
      its parent was in the dump. */
  lemma {:induction false} EnterGains(k: Book, b: Db, ids: seq<int>, j: nat)
    requires AllIn(b, ids) && j <= |ids|
    ensures var (k', whole, n) := EnterFrom(k, b, ids, j);
            && j <= n <= |ids| && (whole <==> n == |ids|)
            && Keeps(k, k') && Gains(k, k', b, ids, ids[j..n])
    decreases |ids| - j
  {
    hide RootFor, HasParent, Contested;
    if j < |ids| && !Contested(k, b, ids, ids[j]) {
      var k1 := Entered(k, b, ids, ids[j]);
      EnterGains(k1, b, ids, j + 1);
      var (k', whole, n) := EnterFrom(k1, b, ids, j + 1);
      GainsOneMore(k, k', b, ids, j, n);
    }
  }

  lemma GainsOneMore(k: Book, k': Book, b: Db, ids: seq<int>, j: nat, n: nat)
    requires AllIn(b, ids) && j < n <= |ids|
    requires var k1 := Entered(k, b, ids, ids[j]); Keeps(k1, k') && Gains(k1, k', b, ids, ids[j + 1..n])
    ensures Keeps(k, k') && Gains(k, k', b, ids, ids[j..n])
  {
    hide RootFor, HasParent;
    assert ids[j..n] == [ids[j]] + ids[j + 1..n];
  }

  /** Some track from the j-th on is contested. */
  predicate AnyContested(k: Book, b: Db, ids: seq<int>, j: nat)
    requires AllIn(b, ids)
  {
    exists i: nat :: j <= i < |ids| && Contested(k, b, ids, ids[i])
  }

  /** Entering a track contests no other: no two visible tracks supersede the same. */
  lemma ContestedStays(k: Book, b: Db, ids: seq<int>, j: nat, i: nat)
    requires AllIn(b, ids) && AllVisible(b, ids) && Ascending(ids) && IndexHolds(b) && j < i < |ids|
    ensures Contested(Entered(k, b, ids, ids[j]), b, ids, ids[i]) <==> Contested(k, b, ids, ids[i])
  {
    hide RootFor, IndexHolds, Ascending, AllVisible;
    AscendingDiffer(ids, i);
    if b.tracks[ids[i]].supersedes.Some? && Supersedes(b, ids[j], b.tracks[ids[i]].supersedes.value) {
      VisibleAt(b, ids, i);
      VisibleAt(b, ids, j);
      OneLiveSuccessor(b, ids[i], ids[j]);
    }
  }

  lemma VisibleAt(b: Db, ids: seq<int>, i: nat)
    requires AllVisible(b, ids) && i < |ids|
    ensures VisibleTrack(b, ids[i])
  {
  }

  lemma OneLiveSuccessor(b: Db, t: int, u: int)
    requires IndexHolds(b) && t in b.tracks && u in b.tracks && b.tracks[t].Live() && b.tracks[u].Live()
    requires b.tracks[t].supersedes.Some? && b.tracks[t].supersedes == b.tracks[u].supersedes
    ensures t == u
  {
  }

  lemma {:induction false} StopsIffContested(k: Book, b: Db, ids: seq<int>, j: nat)
    requires AllIn(b, ids) && AllVisible(b, ids) && Ascending(ids) && IndexHolds(b) && j <= |ids|
    ensures EnterFrom(k, b, ids, j).1 <==> !AnyContested(k, b, ids, j)
    decreases |ids| - j
  {
    hide Contested, Entered, AllVisible, Ascending, IndexHolds;
    if j < |ids| && !Contested(k, b, ids, ids[j]) {
      StopsIffContested(Entered(k, b, ids, ids[j]), b, ids, j + 1);
      forall i: nat | j < i < |ids|
        ensures Contested(Entered(k, b, ids, ids[j]), b, ids, ids[i]) <==> Contested(k, b, ids, ids[i])
      {
        ContestedStays(k, b, ids, j, i);
      }
    }
  }

  lemma ImportEndsIffWhole(dumps: seq<Db>, b: Db, render: Render)
    requires History(dumps, render) && Shown(b, render) && (dumps != [] ==> Grows(dumps[|dumps| - 1], b))
    ensures Import(Begin(MirrorAfter(dumps, render)), Dump(b, b), render).1 ==
            if Pages(BookAfter(dumps), b).1 then None else Some(StoreRefused)
  {
    hide Stands, Between, Import, Dump, Grows, MirrorAfter, History, BookAfter, AllTracks, Shown, Pages;
    var origin := BooksAreKept(dumps, b, render);
    origin := DumpIsEntered(MirrorAfter(dumps, render), b, BookAfter(dumps), origin, render);
  }

  /** A mirror refuses a dump exactly when it shows a track, not held yet, that supersedes one it shows
      of which the mirror holds another revision with its edge. */
  lemma ImportStopsIff(dumps: seq<Db>, b: Db, render: Render)
    requires History(dumps, render) && Shown(b, render) && (dumps != [] ==> Grows(dumps[|dumps| - 1], b))
    ensures Import(Begin(MirrorAfter(dumps, render)), Dump(b, b), render).1 ==
            if exists y :: VisibleTrack(b, y) && Contested(BookAfter(dumps), b, AllTracks(b), y)
            then Some(StoreRefused) else None
  {
    hide Import, Dump, Grows, Contested, EnterFrom, MirrorAfter, History, BookAfter, AllTracks, Sound, NoTwins,
         Exportable, VisibleTrack, AllIn, AllVisible, Ascending;
    var k, ids := BookAfter(dumps), AllTracks(b);
    ImportEndsIffWhole(dumps, b, render);
    ShownIsKept(b, render);
    TracksAreIn(b);
    StopsIffContested(k, b, ids, 0);
    AllListed(b);
    if y :| VisibleTrack(b, y) && Contested(k, b, ids, y) {
      var i: nat :| i < |ids| && ids[i] == y;
      assert AnyContested(k, b, ids, 0);
    }
    forall i: nat | i < |ids| ensures VisibleTrack(b, ids[i]) {
      VisibleAt(b, ids, i);
    }
  }

  lemma ShownIsKept(b: Db, render: Render)
    requires Shown(b, render)
    ensures WellKept(b) && IndexHolds(b)
  {
  }

  // -- What is held -----------------------------------------------------------------------

  /** The tracks of the i-th dump its import came to. */
  function Taken(dumps: seq<Db>, i: nat): seq<int>
    requires i < |dumps|
  {
    var n := Pages(BookAfter(dumps[..i]), dumps[i]).2;
    if n <= |AllTracks(dumps[i])| then AllTracks(dumps[i])[..n] else []
  }

  lemma PagesGain(k: Book, b: Db)
    ensures var (k', whole, n) := Pages(k, b);
            && AllIn(b, AllTracks(b)) && n <= |AllTracks(b)| && (whole <==> n == |AllTracks(b)|)
            && Keeps(k, k') && Gains(k, k', b, AllTracks(b), AllTracks(b)[..n])
  {
    TracksAreIn(b);
    EnterGains(k, b, AllTracks(b), 0);
    assert AllTracks(b)[0..Pages(k, b).2] == AllTracks(b)[..Pages(k, b).2];
    hide EnterFrom, AllTracks, Gains, Keeps;
  }

  lemma OneMoreDump(dumps: seq<Db>)
    requires dumps != []
    ensures var n := |dumps| - 1;
            && BookAfter(dumps) == Pages(BookAfter(dumps[..n]), dumps[n]).0
            && Keeps(BookAfter(dumps[..n]), BookAfter(dumps)) && Taken(dumps, n) <= AllTracks(dumps[n])
            && AllIn(dumps[n], AllTracks(dumps[n]))
            && Gains(BookAfter(dumps[..n]), BookAfter(dumps), dumps[n], AllTracks(dumps[n]), Taken(dumps, n))
  {
    var n := |dumps| - 1;
    PagesGain(BookAfter(dumps[..n]), dumps[n]);
    hide Pages, AllTracks, Keeps, Gains, AllIn;
  }

  lemma TakenBefore(dumps: seq<Db>, m: nat, i: nat)
    requires i < m <= |dumps|
    ensures Taken(dumps[..m], i) == Taken(dumps, i)
  {
    assert dumps[..m][..i] == dumps[..i];
  }

  /** A track is held exactly when the import of some dump came to it. */
  lemma {:induction false} HeldIff(dumps: seq<Db>, y: int)
    ensures y in BookAfter(dumps).roots <==> exists i: nat :: i < |dumps| && y in Taken(dumps, i)
    decreases |dumps|
  {
    hide Taken, Pages, AllTracks;
    if dumps != [] {
      var n := |dumps| - 1;
      HeldIff(dumps[..n], y);
      OneMoreDump(dumps);
      forall i: nat | i < n ensures Taken(dumps[..n], i) == Taken(dumps, i) {
        TakenBefore(dumps, n, i);
      }
    }
  }

  /** The i-th dump brought the track. */
  ghost predicate BroughtBy(dumps: seq<Db>, i: nat, y: int) {
    i < |dumps| && y in Taken(dumps, i) && forall h: nat :: h < i ==> y !in Taken(dumps, h)
  }

  /** Its parent was in the dump that brought it. */
  predicate CameWithParent(dumps: seq<Db>, i: nat, y: int)
    requires i < |dumps|
  {
    y in dumps[i].tracks && HasParent(dumps[i], AllTracks(dumps[i]), y)
  }

  lemma {:induction false} EdgedAreHeld(dumps: seq<Db>)
    ensures BookAfter(dumps).edged <= BookAfter(dumps).roots.Keys
    decreases |dumps|
  {
    if dumps != [] {
      hide Taken, Pages, AllTracks, HasParent, BookAfter, Keeps;
      EdgedAreHeld(dumps[..|dumps| - 1]);
      OneMoreDump(dumps);
      forall y | y in BookAfter(dumps).edged ensures y in BookAfter(dumps).roots {
      }
    } else {
      assert BookAfter(dumps) == BLANK;
    }
  }

  /** A row has an edge exactly when its parent was in the dump that brought the row: what later dumps
      bring changes nothing about it. */
  lemma {:induction false} EdgeCameWithTheRow(dumps: seq<Db>, i: nat, y: int)
    requires BroughtBy(dumps, i, y)
    ensures y in BookAfter(dumps).edged <==> CameWithParent(dumps, i, y)
    decreases |dumps|
  {
    var n := |dumps| - 1;
    var init := dumps[..n];
    hide Taken, Pages, AllTracks, HasParent;
    OneMoreDump(dumps);
    HeldIff(init, y);
    EdgedAreHeld(init);
    forall h: nat | h < n ensures Taken(init, h) == Taken(dumps, h) {
      TakenBefore(dumps, n, h);
    }
    if i < n {
      EdgeCameWithTheRow(init, i, y);
    } else {
      InItsDump(dumps[n], Taken(dumps, n), y);
    }
    hide BookAfter;
  }

  lemma InItsDump(b: Db, some: seq<int>, y: int)
    requires some <= AllTracks(b) && y in some
    ensures y in b.tracks
  {
    TracksAreIn(b);
    hide AllTracks;
    var i :| 0 <= i < |some| && some[i] == y;
    assert AllTracks(b)[i] == y;
  }

  // -- Chains -----------------------------------------------------------------------------

  /** Everything held of the chain hangs from its root. */
  ghost predicate ChainHangs(k: Book, b: Db, r: int) {
    forall y :: y in k.roots && y in b.tracks && b.tracks[y].root == r ==> k.roots[y] == r
  }

  lemma EnteredHangs(k: Book, b: Db, ids: seq<int>, j: nat, r: int)
    requires WellKept(b) && AllSound(b) && AllIn(b, ids) && Ascending(ids) && j < |ids| && r in ids
    requires ChainHangs(k, b, r) && forall i :: 0 <= i < j ==> ids[i] in k.roots
    ensures ChainHangs(Entered(k, b, ids, ids[j]), b, r)
  {
    var y := ids[j];
    RootIsOldest(b, y);
    assert SoundTrack(b, y);
    if b.tracks[y].root == r && y != r && y !in k.roots {
      RootIsOldest(b, r);
      BeforeIt(ids, j, r);
      var i :| 0 <= i < j && ids[..j][i] == r;
      assert ids[i] in k.roots;
      hide WellKept, AllSound, Ascending;
      assert RootFor(k, b, ids, y) == r;
    }
    hide WellKept, AllSound, Ascending;
  }

  lemma {:induction false} EnterKeepsHanging(k: Book, b: Db, ids: seq<int>, j: nat, r: int)
    requires WellKept(b) && AllSound(b) && AllIn(b, ids) && Ascending(ids) && j <= |ids| && r in ids
    requires ChainHangs(k, b, r) && forall i :: 0 <= i < j ==> ids[i] in k.roots
    ensures ChainHangs(EnterFrom(k, b, ids, j).0, b, r)
    decreases |ids| - j
  {
    hide Contested, RootFor, WellKept, AllSound, ChainHangs, Ascending, HasParent;
    if j < |ids| && !Contested(k, b, ids, ids[j]) {
      EnteredHangs(k, b, ids, j, r);
      EnterKeepsHanging(Entered(k, b, ids, ids[j]), b, ids, j + 1, r);
    }
  }

  lemma GrowsItself(b: Db)
    ensures Grows(b, b)
  {
  }

  /** What is held is there, in the node the dumps are of. */
  lemma HeldAreThere(dumps: seq<Db>, b: Db, render: Render)
    requires History(dumps, render) && (dumps != [] ==> Grows(dumps[|dumps| - 1], b))
    ensures forall y :: y in BookAfter(dumps).roots ==> y in b.tracks
  {
    hide History, Grows, BookAfter, MirrorAfter, WellKept, OneRowEach, RowBooked;
    var origin := BooksAreKept(dumps, b, render);
    forall y | y in BookAfter(dumps).roots ensures y in b.tracks {
      var x := RowOfTrack(MirrorAfter(dumps, render), origin, BookAfter(dumps), y);
      MatchesLive(MirrorAfter(dumps, render), b, origin, x);
    }
  }

  lemma HangsInGrown(k: Book, a: Db, b: Db, r: int)
    requires ChainHangs(k, a, r) && Grows(a, b) && forall y :: y in k.roots ==> y in a.tracks
    ensures ChainHangs(k, b, r)
  {
    forall y | y in k.roots ensures y in b.tracks && b.tracks[y].root == a.tracks[y].root {
      assert SameShape(a.tracks[y], b.tracks[y]);
    }
  }

  /** A chain whose root every dump shows is one chain here, under its root, whichever revisions any of
      them lacks and wherever their imports stopped. */
  lemma {:induction false} ChainsHangFromTheirRoots(dumps: seq<Db>, r: int, render: Render)
    requires History(dumps, render) && dumps != []
    requires forall i :: 0 <= i < |dumps| ==> r in AllTracks(dumps[i])
    ensures ChainHangs(BookAfter(dumps), dumps[|dumps| - 1], r)
    decreases |dumps|
  {
    hide AllTracks, ChainHangs, Grows, EnterFrom, Exportable, NoTwins;
    var init, b := dumps[..|dumps| - 1], dumps[|dumps| - 1];
    var k := BookAfter(init);
    if init == [] {
      BlankHangs(b, r);
    } else {
      var prev := init[|init| - 1];
      ChainsHangFromTheirRoots(init, r, render);
      GrowsItself(prev);
      HeldAreThere(init, prev, render);
      HangsInGrown(k, prev, b, r);
    }
    TracksAreIn(b);
    hide Ascending, AllIn, AllVisible;
    EnterKeepsHanging(k, b, AllTracks(b), 0, r);
  }

  lemma BlankHangs(b: Db, r: int)
    ensures ChainHangs(BLANK, b, r)
  {
  }

  // -- The rows ----------------------------------------------------------------------------

  /** The rows of a mirror after any number of dumps of a growing node, finished or stopped: one for
      every track some import came to, saying what it says; with its edge exactly when its parent was
      in the dump that brought it; and, for a chain whose root every dump shows, under the row of
      that root. */
  lemma MirrorsAfter(dumps: seq<Db>, render: Render) returns (origin: map<int, int>)
    requires History(dumps, render) && dumps != []
    ensures Origins(MirrorAfter(dumps, render), dumps[|dumps| - 1], origin)
    ensures forall y :: Held(origin, y) <==> exists i: nat :: i < |dumps| && y in Taken(dumps, i)
    ensures EdgesAsBrought(dumps, MirrorAfter(dumps, render), origin)
    ensures ChainsAsShown(dumps, MirrorAfter(dumps, render), dumps[|dumps| - 1], origin)
  {
    hide AllTracks, MirrorAfter, Taken, WellKept, OneRowEach, RowMatches, Grows, ChainHangs, Exportable, NoTwins, Sound,
         BookAfter, HasParent, BroughtBy, RowBooked, AllHeld, Held, CameWithParent, HangsFrom, RowsBooked, History;
    var b, k, d := dumps[|dumps| - 1], BookAfter(dumps), MirrorAfter(dumps, render);
    GrowsItself(b);
    origin := BooksAreKept(dumps, b, render);
    forall y ensures Held(origin, y) <==> exists i: nat :: i < |dumps| && y in Taken(dumps, i) {
      NotHeldIsNew(d, origin, k, y);
      HeldIff(dumps, y);
    }
    forall x, i: nat | x in origin && x in d.tracks && i < |dumps| && BroughtBy(dumps, i, origin[x])
      ensures d.tracks[x].supersedes.Some? <==> CameWithParent(dumps, i, origin[x])
    {
      RowIsBooked(d, origin, k, x);
      EdgeCameWithTheRow(dumps, i, origin[x]);
    }
    forall x, r | x in origin && InAll(dumps, r) && origin[x] in b.tracks && b.tracks[origin[x]].root == r
      ensures HangsFrom(d, origin, x, r)
    {
      RowIsBooked(d, origin, k, x);
      ChainsHangFromTheirRoots(dumps, r, render);
      HangsAt(k, b, r, origin[x]);
      hide InAll;
      RowHangs(d, origin, k, x, r);
    }
  }

  lemma RowHangs(d: Db, origin: map<int, int>, k: Book, x: int, r: int)
    requires x in origin && x in d.tracks && d.tracks[x].root in origin && origin[x] in k.roots
    requires origin[d.tracks[x].root] == k.roots[origin[x]] == r
    ensures HangsFrom(d, origin, x, r)
  {
  }

  lemma HangsAt(k: Book, b: Db, r: int, y: int)
    requires ChainHangs(k, b, r) && y in k.roots && y in b.tracks && b.tracks[y].root == r
    ensures k.roots[y] == r
  {
  }

  /** Row `x` is under the row that stands for `r`. */
  predicate HangsFrom(d: Db, origin: map<int, int>, x: int, r: int) {
    x in d.tracks && d.tracks[x].root in origin && origin[d.tracks[x].root] == r
  }

  // -- Two dumps -----------------------------------------------------------------------------

  /** `a` exported, then grew into `b`, which exports. */
  ghost predicate Successive(a: Db, b: Db, render: Render) {
    && Sound(a) && Exportable(a, render) && Sound(b) && NoTwins(b) && Exportable(b, render) && Grows(a, b)
  }

  lemma GrewWithoutTwins(a: Db, b: Db)
    requires Grows(a, b) && NoTwins(b)
    ensures NoTwins(a)
  {
    forall t, u | t in a.tracks && u in a.tracks && SaysSame(a.tracks[t], a.tracks[u]) ensures t == u {
      assert SameShape(a.tracks[t], b.tracks[t]) && SameShape(a.tracks[u], b.tracks[u]);
      assert SaysSame(b.tracks[t], b.tracks[u]);
    }
  }

  lemma SuccessiveHistory(a: Db, b: Db, render: Render)
    requires Successive(a, b, render)
    ensures History([a], render) && History([a, b], render)
    ensures MirrorAfter([a], render) == MirrorOf(a, render)
    ensures MirrorAfter([a, b], render) == Import(Begin(MirrorOf(a, render)), Dump(b, b), render).0.db
  {
    GrewWithoutTwins(a, b);
    assert [a, b][..1] == [a] && [a][..0] == [];
    assert MirrorAfter([a][..0], render) == EMPTY;
    hide Sound, Exportable, NoTwins, Grows, Import, Dump;
  }

  /** The first import is never refused, and brings every track. */
  lemma FirstIsTakenWhole(dumps: seq<Db>, render: Render)
    requires dumps != [] && Shown(dumps[0], render)
    ensures Taken(dumps, 0) == AllTracks(dumps[0])
    ensures dumps[..0] == [] && Pages(BLANK, dumps[0]).1
  {
    var a := dumps[0];
    assert dumps[..0] == [];
    ShownIsKept(a, render);
    TracksAreIn(a);
    hide AllTracks, Shown, Ascending, AllVisible, WellKept, IndexHolds, AllIn, HasParent;
    StopsIffContested(BLANK, a, AllTracks(a), 0);
    PagesGain(BLANK, a);
    hide Pages, EnterFrom, Keeps, Gains;
  }

  /** The mirror of `a` after it imported what it could of the dump of `b`. */
  function Refreshed(a: Db, b: Db, render: Render): (Pass, Option<Stop>) {
    Import(Begin(MirrorOf(a, render)), Dump(b, b), render)
  }

  /** Not in the earlier dump, superseding a track in both, of which the earlier one had a revision. */
  predicate Rivals(b: Db, was: seq<int>, ids: seq<int>, y: int)
    requires y in b.tracks
  {
    var edge := b.tracks[y].supersedes;
    && y !in was && edge.Some? && edge.value in was && edge.value in ids
    && exists i :: 0 <= i < |was| && Supersedes(b, was[i], edge.value)
  }

  /** The book of the first mirror. */
  lemma FirstBook(a: Db, render: Render)
    requires Shown(a, render)
    ensures AllIn(a, AllTracks(a)) && Gains(BLANK, BookAfter([a]), a, AllTracks(a), AllTracks(a))
  {
    FirstIsTakenWhole([a], render);
    OneMoreDump([a]);
    assert [a][..0] == [];
    hide Taken, Pages, AllTracks, Shown, Gains;
  }

  /** Contested by the book of the first mirror is being a rival. */
  lemma ContestedAreRivals(k: Book, a: Db, b: Db, was: seq<int>, ids: seq<int>, y: int)
    requires AllIn(a, was) && Gains(BLANK, k, a, was, was) && Grows(a, b) && y in b.tracks
    ensures Contested(k, b, ids, y) <==> Rivals(b, was, ids, y)
  {
    forall t | t in was ensures t in a.tracks && t in b.tracks && b.tracks[t].supersedes == a.tracks[t].supersedes {
      assert SameShape(a.tracks[t], b.tracks[t]);
    }
    if Contested(k, b, ids, y) {
      var t :| t in k.edged && Supersedes(b, t, b.tracks[y].supersedes.value);
      var i :| 0 <= i < |was| && was[i] == t;
      assert Supersedes(b, was[i], b.tracks[y].supersedes.value);
    }
    if Rivals(b, was, ids, y) {
      var i :| 0 <= i < |was| && Supersedes(b, was[i], b.tracks[y].supersedes.value);
      assert was[i] in k.edged && Supersedes(b, was[i], b.tracks[y].supersedes.value);
    }
  }

  /** A mirror takes a newer dump of the node it mirrors to the end exactly when no track the first
      dump lacked supersedes one both hold that the first dump held another revision of: that other
      revision is still up here, so the store refuses a second one, and the import stops at it. */
  lemma NewerDumpIsTakenIff(a: Db, b: Db, render: Render)
    requires Successive(a, b, render)
    ensures Refreshed(a, b, render).1 ==
            if exists y :: VisibleTrack(b, y) && Rivals(b, AllTracks(a), AllTracks(b), y)
            then Some(StoreRefused) else None
  {
    SuccessiveHistory(a, b, render);
    GrewWithoutTwins(a, b);
    hide Sound, Exportable, NoTwins, Grows, Import, Dump, History, MirrorAfter, BookAfter, AllTracks, Rivals, Contested,
         MirrorOf;
    FirstBook(a, render);
    ImportStopsIff([a], b, render);
    hide AllIn, Gains, VisibleTrack;
    forall y | VisibleTrack(b, y)
      ensures y in b.tracks && (Contested(BookAfter([a]), b, AllTracks(b), y) <==>
              Rivals(b, AllTracks(a), AllTracks(b), y))
    {
      ItIsThere(b, y);
      ContestedAreRivals(BookAfter([a]), a, b, AllTracks(a), AllTracks(b), y);
    }
  }

  lemma ItIsThere(b: Db, y: int)
    requires VisibleTrack(b, y)
    ensures y in b.tracks
  {
  }

  /** The rows of a refreshed mirror, where `n` tracks of the newer dump were imported. */
  ghost predicate Rejoined(d: Db, b: Db, was: seq<int>, ids: seq<int>, n: nat, origin: map<int, int>)
    requires n <= |ids|
  {
    && Origins(d, b, origin)
    && (forall y :: Held(origin, y) <==> y in was || y in ids[..n])
    && (forall x :: x in origin ==> RowRejoined(d, b, was, ids, origin, x))
  }

  /** Its edge is there exactly when its parent was in the dump that brought it, and with the root of
      its chain in both dumps it is under that root. */
  predicate RowRejoined(d: Db, b: Db, was: seq<int>, ids: seq<int>, origin: map<int, int>, x: int)
    requires x in origin
  {
    && x in d.tracks && origin[x] in b.tracks
    && (d.tracks[x].supersedes.Some? <==> HasParent(b, if origin[x] in was then was else ids, origin[x]))
    && (b.tracks[origin[x]].root in was && b.tracks[origin[x]].root in ids ==>
          HangsFrom(d, origin, x, b.tracks[origin[x]].root))
  }

  /** However the node went on between the two dumps, and wherever the second import stopped, the mirror
      has one row for every track of the first dump and every track of the second one it came to. */
  lemma LaterRevisionsRejoin(a: Db, b: Db, render: Render) returns (origin: map<int, int>, n: nat)
    requires Successive(a, b, render)
    ensures n <= |AllTracks(b)| && (Refreshed(a, b, render).1.None? <==> n == |AllTracks(b)|)
    ensures Rejoined(Refreshed(a, b, render).0.db, b, AllTracks(a), AllTracks(b), n, origin)
  {
    var dumps := [a, b];
    assert Grows(a, b);
    hide *;
    SuccessiveHistory(a, b, render);
    n := TakenFromTwo(dumps, a, b, render);
    origin := MirrorsAfter(dumps, render);
    RejoinedFromTwo(dumps, a, b, MirrorAfter(dumps, render), n, origin);
    RefreshedIsAfter(a, b, render);
  }

  lemma RefreshedIsAfter(a: Db, b: Db, render: Render)
    requires Successive(a, b, render)
    ensures Refreshed(a, b, render).0.db == MirrorAfter([a, b], render)
  {
    SuccessiveHistory(a, b, render);
    hide Import, Dump, Successive, MirrorAfter;
  }

  lemma TakenFromTwo(dumps: seq<Db>, a: Db, b: Db, render: Render) returns (n: nat)
    requires Successive(a, b, render) && dumps == [a, b]
    ensures n <= |AllTracks(b)| && (Refreshed(a, b, render).1.None? <==> n == |AllTracks(b)|)
    ensures Taken(dumps, 0) == AllTracks(a) && Taken(dumps, 1) == AllTracks(b)[..n]
  {
    SuccessiveHistory(a, b, render);
    GrewWithoutTwins(a, b);
    assert dumps[..1] == [a] && dumps[0] == a && dumps[1] == b;
    hide Sound, Exportable, NoTwins, Grows, Import, Dump, History, MirrorAfter, BookAfter, AllTracks, MirrorOf, Pages,
         AllIn, Gains, Keeps;
    n := Pages(BookAfter([a]), b).2;
    PagesGain(BookAfter([a]), b);
    ImportEndsIffWhole([a], b, render);
    FirstIsTakenWhole(dumps, render);
  }

  ghost predicate EdgesAsBrought(dumps: seq<Db>, d: Db, origin: map<int, int>) {
    forall x, i: nat :: x in origin && x in d.tracks && i < |dumps| && BroughtBy(dumps, i, origin[x]) ==>
      (d.tracks[x].supersedes.Some? <==> CameWithParent(dumps, i, origin[x]))
  }

  ghost predicate ChainsAsShown(dumps: seq<Db>, d: Db, b: Db, origin: map<int, int>) {
    forall x, r :: x in origin && InAll(dumps, r) && origin[x] in b.tracks && b.tracks[origin[x]].root == r ==>
      HangsFrom(d, origin, x, r)
  }

  ghost predicate InAll(dumps: seq<Db>, r: int) {
    forall i :: 0 <= i < |dumps| ==> r in AllTracks(dumps[i])
  }

  lemma RejoinedFromTwo(dumps: seq<Db>, a: Db, b: Db, d: Db, n: nat, origin: map<int, int>)
    requires dumps == [a, b] && Grows(a, b) && n <= |AllTracks(b)|
    requires Taken(dumps, 0) == AllTracks(a) && Taken(dumps, 1) == AllTracks(b)[..n]
    requires Origins(d, b, origin) && EdgesAsBrought(dumps, d, origin) && ChainsAsShown(dumps, d, b, origin)
    requires forall y :: Held(origin, y) <==> exists i: nat :: i < |dumps| && y in Taken(dumps, i)
    ensures Rejoined(d, b, AllTracks(a), AllTracks(b), n, origin)
  {
    var was, ids := AllTracks(a), AllTracks(b);
    OriginsAreThere(d, b, origin);
    hide AllTracks, Taken, Origins, HangsFrom, Held, Grows, BroughtBy, CameWithParent, HasParent;
    forall y ensures Held(origin, y) <==> y in was || y in ids[..n] {
      assert y in was ==> y in Taken(dumps, 0);
      assert y in ids[..n] ==> y in Taken(dumps, 1);
    }
    forall x | x in origin ensures RowRejoined(d, b, was, ids, origin, x) {
      var y := origin[x];
      HeldIsHeld(origin, x);
      var i: nat := if y in was then 0 else 1;
      BroughtByOne(dumps, a, b, n, y);
      SameParent(a, b, was, y);
      CameFromOne(dumps, a, b, y);
      hide EdgesAsBrought, ChainsAsShown, InAll, Taken;
      EdgeAsBrought(dumps, d, origin, x, i);
      ChainAsShown(dumps, d, b, origin, x);
    }
  }

  lemma BroughtByOne(dumps: seq<Db>, a: Db, b: Db, n: nat, y: int)
    requires dumps == [a, b] && n <= |AllTracks(b)| && (y in AllTracks(a) || y in AllTracks(b)[..n])
    requires Taken(dumps, 0) == AllTracks(a) && Taken(dumps, 1) == AllTracks(b)[..n]
    ensures BroughtBy(dumps, if y in AllTracks(a) then 0 else 1, y)
  {
    hide Taken, AllTracks;
  }

  lemma CameFromOne(dumps: seq<Db>, a: Db, b: Db, y: int)
    requires dumps == [a, b] && Grows(a, b) && y in b.tracks
    ensures var was := AllTracks(a);
            CameWithParent(dumps, if y in was then 0 else 1, y) <==>
                HasParent(b, if y in was then was else AllTracks(b), y)
  {
    TracksAreIn(a);
    SameParent(a, b, AllTracks(a), y);
    hide AllTracks, Grows, HasParent, Ascending, AllVisible;
  }

  lemma EdgeAsBrought(dumps: seq<Db>, d: Db, origin: map<int, int>, x: int, i: nat)
    requires EdgesAsBrought(dumps, d, origin) && x in origin && x in d.tracks && i < |dumps|
    requires BroughtBy(dumps, i, origin[x])
    ensures d.tracks[x].supersedes.Some? <==> CameWithParent(dumps, i, origin[x])
  {
    hide BroughtBy, CameWithParent;
  }

  lemma ChainAsShown(dumps: seq<Db>, d: Db, b: Db, origin: map<int, int>, x: int)
    requires ChainsAsShown(dumps, d, b, origin) && x in origin && origin[x] in b.tracks
    ensures InAll(dumps, b.tracks[origin[x]].root) ==> HangsFrom(d, origin, x, b.tracks[origin[x]].root)
  {
    hide InAll, HangsFrom;
  }

  lemma HeldIsHeld(origin: map<int, int>, x: int)
    requires x in origin
    ensures Held(origin, origin[x])
  {
  }

  lemma OriginsAreThere(d: Db, b: Db, origin: map<int, int>)
    requires Origins(d, b, origin)
    ensures forall x :: x in origin ==> x in d.tracks && origin[x] in b.tracks
  {
    forall x | x in origin ensures x in d.tracks && origin[x] in b.tracks {
      MatchesLive(d, b, origin, x);
    }
    hide OneRowEach, RowMatches;
  }

  lemma SameParent(a: Db, b: Db, was: seq<int>, y: int)
    requires Grows(a, b)
    ensures y in a.tracks ==> y in b.tracks && HasParent(a, was, y) == HasParent(b, was, y)
  {
    assert y in a.tracks ==> SameShape(a.tracks[y], b.tracks[y]);
  }

  /** In particular for a node and itself any number of requests and moderation steps later. */
  lemma RunsAreSuccessive(s: State, events: seq<Event>, diverge: Divergence, render: Render)
    requires Inv(s) && Exportable(s.db, render)
    requires NoTwins(Run(s, events, diverge).db) && Exportable(Run(s, events, diverge).db, render)
    ensures Successive(s.db, Run(s, events, diverge).db, render)
  {
    ChainsStaySound(s, events, diverge);
    hide Sound, Exportable, NoTwins, Grows, Run;
  }
}
