/** runImport, importRelease and importTrack of cmd/moansubs/import.go: one pass over a dump's lines,
    renaming release and track ids and relinking revisions. `render` is subtitle.Parse followed by
    subtitle.RenderSRT, None where parsing fails.
 */
module Imports {
  import opened Wrappers
  import opened PHashing
  import opened Catalogue
  import opened Dumps
  import Hex
  import Lookups

  type Render = string -> Option<string>

  datatype Stats = Stats(releases: nat, imported: nat, duplicate: nat, skipped: nat, withdrawn: nat) {
    function Tracks(): nat {
      imported + duplicate + skipped + withdrawn
    }
  }

  datatype Stop = WrongFormat | BadOshash | BadPhash | UnseenRelease | UnknownKind | StoreRefused

  /** The tables, and what the pass remembers: the local id of every dumped release (0 for one
      withdrawn here) and the local id and root of every dumped track. */
  datatype Pass = Pass(db: Db, releaseIds: map<int, int>, trackIds: map<int, int>, trackRoots: map<int, int>,
                       stats: Stats)

  function Begin(db: Db): Pass {
    Pass(db, map[], map[], map[], Stats(0, 0, 0, 0, 0))
  }

  function ParseOshash(s: string): Option<string> {
    var lower := Lookups.ToLower(s);
    if |lower| == 16 && Lookups.IsLowerHex(lower) then Some(lower) else None
  }

  function ReleaseStep(s: Pass, id: int, oshash: string, phash: Option<string>, durationMs: int): Result<Pass, Stop> {
    if ParseOshash(oshash).None? then Failure(BadOshash)
    else if phash.Some? && Parse(phash.value).None? then Failure(BadPhash)
    else
      var (db, local) := GetOrCreateRelease(s.db, ParseOshash(oshash).value,
                                            if phash.Some? then Parse(phash.value) else None, durationMs);
      Success(s.(db := db,
                 releaseIds := s.releaseIds[id := if VisibleRelease(db, local) then local else 0],
                 stats := s.stats.(releases := s.stats.releases + 1)))
  }

  /** The local parent and root of a revision: by its parent if that was seen, else by its root. */
  function Relink(s: Pass, t: TrackLine): (Option<int>, int) {
    match t.supersedes
    case None => (None, 0)
    case Some(p) =>
      if p in s.trackIds && p in s.trackRoots then (Some(s.trackIds[p]), s.trackRoots[p])
      else (None, if t.root in s.trackRoots then s.trackRoots[t.root] else 0)
  }

  function KindOf(t: TrackLine): string {
    if t.kind == "" then "default" else t.kind
  }

  /** The row to create: a mirror's tracks belong to no local account. */
  function RowOf(t: TrackLine, releaseId: int, body: string, parent: Option<int>, root: int): TrackRow {
    TrackRow(releaseId, t.lang, body, t.generated, t.declared, None, KindOf(t), t.kindLabel,
             if t.authorship == "" then "shared" else t.authorship, None,
             root, if root != 0 then t.revision else 0, parent, false)
  }

  function TrackStep(s: Pass, t: TrackLine, render: Render): Result<Pass, Stop> {
    if t.releaseId !in s.releaseIds then Failure(UnseenRelease)
    else if s.releaseIds[t.releaseId] == 0 then Success(s.(stats := s.stats.(withdrawn := s.stats.withdrawn + 1)))
    else if render(t.body).None? then Success(s.(stats := s.stats.(skipped := s.stats.skipped + 1)))
    else
      var releaseId, body := s.releaseIds[t.releaseId], render(t.body).value;
      var existing := FindIdenticalTrack(s.db, releaseId, t.lang, body);
      if existing != 0 then
        Success(s.(db := SetKind(s.db, existing, KindOf(t), t.kindLabel),
                   trackIds := s.trackIds[t.id := existing],
                   trackRoots := s.trackRoots[t.id := s.db.tracks[existing].root],
                   stats := s.stats.(duplicate := s.stats.duplicate + 1)))
      else
        var (parent, root) := Relink(s, t);
        match CreateTrack(s.db, RowOf(t, releaseId, body, parent, root))
        case None => Failure(StoreRefused)
        case Some((db, id)) =>
          Success(s.(db := db,
                     trackIds := s.trackIds[t.id := id],
                     trackRoots := s.trackRoots[t.id := if root != 0 then root else id],
                     stats := s.stats.(imported := s.stats.imported + 1)))
  }

  function LineStep(s: Pass, line: Line, render: Render): Result<Pass, Stop> {
    match line
    case MetaLine(format) => if format != FORMAT then Failure(WrongFormat) else Success(s)
    case ReleaseLine(id, oshash, phash, durationMs) => ReleaseStep(s, id, oshash, phash, durationMs)
    case OfTrack(t) => TrackStep(s, t, render)
    case OtherLine(_) => Failure(UnknownKind)
  }

  /** What was imported before a bad line stays. */
  function Import(s: Pass, lines: seq<Line>, render: Render): (Pass, Option<Stop>)
    decreases lines
  {
    if lines == [] then (s, None)
    else
      match LineStep(s, lines[0], render)
      case Failure(stop) => (s, Some(stop))
      case Success(s') => Import(s', lines[1..], render)
  }

  lemma {:induction false} ImportOneMore(s: Pass, lines: seq<Line>, n: nat, render: Render)
    requires n < |lines| && Import(s, lines[..n], render).1.None?
    ensures Import(s, lines[..n + 1], render) ==
            match LineStep(Import(s, lines[..n], render).0, lines[n], render)
            case Failure(stop) => (Import(s, lines[..n], render).0, Some(stop))
            case Success(s') => (s', None)
    ensures Import(s, lines[..n + 1], render).1.Some? ==> Import(s, lines, render) == Import(s, lines[..n + 1], render)
    decreases n
  {
    hide LineStep;
    if n == 0 {
      assert lines[..1][1..] == [];
    } else {
      var s' := LineStep(s, lines[0], render).value;
      assert lines[..n][1..] == lines[1..][..n - 1] && lines[..n + 1][1..] == lines[1..][..n];
      ImportOneMore(s', lines[1..], n - 1, render);
    }
  }

  // -- What a pass keeps -----------------------------------------------------------

  predicate SameButKind(t: TrackRow, u: TrackRow) {
    u == t.(kind := u.kind, kindLabel := u.kindLabel)
  }

  /** Releases are as they were, takedowns included; tracks too, but for a corrected kind; what is
      new has a new id, is visible, and belongs to a visible release. */
  ghost predicate Extends(a: Db, b: Db) {
    && a.nextRelease <= b.nextRelease && a.nextTrack <= b.nextTrack
    && (forall r :: r in a.releases ==> r in b.releases && b.releases[r] == a.releases[r])
    && (forall r :: r in b.releases && r !in a.releases ==> r >= a.nextRelease && VisibleRelease(b, r))
    && (forall t :: t in a.tracks ==> t in b.tracks && SameButKind(a.tracks[t], b.tracks[t]))
    && (forall t :: t in b.tracks && t !in a.tracks ==> t >= a.nextTrack && VisibleTrack(b, t))
  }

  lemma ExtendsOn(a: Db, b: Db, c: Db)
    requires Extends(a, b) && Extends(b, c)
    ensures Extends(a, c)
  {
    forall t | t in a.tracks ensures t in c.tracks && SameButKind(a.tracks[t], c.tracks[t]) {
      assert SameButKind(a.tracks[t], b.tracks[t]);
    }
    forall t | t in c.tracks && t !in a.tracks ensures t >= a.nextTrack && VisibleTrack(c, t) {
      if t in b.tracks {
        assert VisibleTrack(b, t) && SameButKind(b.tracks[t], c.tracks[t]);
      }
    }
  }

  /** Every remembered release is visible here. */
  ghost predicate Proper(s: Pass) {
    WellKept(s.db) && forall x :: x in s.releaseIds ==> s.releaseIds[x] == 0 || VisibleRelease(s.db, s.releaseIds[x])
  }

  lemma KindKeepsKept(db: Db, id: int, kind: string, kindLabel: Option<string>)
    requires WellKept(db)
    ensures WellKept(SetKind(db, id, kind, kindLabel)) && Extends(db, SetKind(db, id, kind, kindLabel))
    ensures SetKind(db, id, kind, kindLabel).releases == db.releases
  {
  }

  lemma RowKeepsKept(db: Db, row: TrackRow)
    requires WellKept(db) && row.Live() && VisibleRelease(db, row.releaseId)
    ensures WellKept(AddRow(db, row)) && Extends(db, AddRow(db, row)) && db.nextTrack !in db.tracks
  {
  }

  lemma ReleaseStepKeeps(s: Pass, id: int, oshash: string, phash: Option<string>, durationMs: int)
    requires Proper(s) && ReleaseStep(s, id, oshash, phash, durationMs).Success?
    ensures var s' := ReleaseStep(s, id, oshash, phash, durationMs).value;
            Proper(s') && Extends(s.db, s'.db)
  {
    hide GetOrCreateRelease, ParseOshash, Parse, WellKept, Extends;
    var ph := if phash.Some? then Parse(phash.value) else None;
    ReleaseKeepsKept(s.db, ParseOshash(oshash).value, ph, durationMs);
    hide VisibleRelease;
    var s' := ReleaseStep(s, id, oshash, phash, durationMs).value;
    forall x | x in s'.releaseIds ensures s'.releaseIds[x] == 0 || VisibleRelease(s'.db, s'.releaseIds[x]) {
      if x in s.releaseIds && s.releaseIds[x] != 0 {
        VisibleStays(s.db, s'.db, s.releaseIds[x]);
      }
    }
  }

  lemma ReleaseKeepsKept(db: Db, oshash: string, phash: Option<PHash>, durationMs: int)
    requires WellKept(db)
    ensures var db' := GetOrCreateRelease(db, oshash, phash, durationMs).0; WellKept(db') && Extends(db, db')
  {
    GetOrCreateReleaseFinds(db, oshash, phash, durationMs);
    hide GetOrCreateRelease;
  }

  lemma VisibleStays(a: Db, b: Db, r: int)
    requires Extends(a, b) && VisibleRelease(a, r)
    ensures VisibleRelease(b, r)
  {
  }

  lemma TrackStepKeeps(s: Pass, t: TrackLine, render: Render)
    requires Proper(s) && TrackStep(s, t, render).Success?
    ensures var s' := TrackStep(s, t, render).value; Proper(s') && Extends(s.db, s'.db)
  {
    var s' := TrackStep(s, t, render).value;
    if s'.db != s.db || s'.trackIds != s.trackIds {
      var releaseId, body := s.releaseIds[t.releaseId], render(t.body).value;
      var existing := FindIdenticalTrack(s.db, releaseId, t.lang, body);
      hide IdenticalFrom, Relink;
      KindKeepsKept(s.db, existing, KindOf(t), t.kindLabel);
      if existing == 0 {
        var row := RowOf(t, releaseId, body, Relink(s, t).0, Relink(s, t).1);
        RowKeepsKept(s.db, row.(root := if row.root == 0 then s.db.nextTrack else row.root,
                                revision := if row.revision == 0 then 1 else row.revision));
        hide MayInsert;
        assert s'.db.releases == s.db.releases;
      }
      hide WellKept, Extends, TrackStep;
    }
  }

  lemma LineStepKeeps(s: Pass, line: Line, render: Render)
    requires Proper(s) && LineStep(s, line, render).Success?
    ensures var s' := LineStep(s, line, render).value; Proper(s') && Extends(s.db, s'.db)
  {
    hide ReleaseStep, TrackStep, WellKept;
    match line
    case MetaLine(_) =>
    case ReleaseLine(id, oshash, phash, durationMs) => ReleaseStepKeeps(s, id, oshash, phash, durationMs);
    case OfTrack(t) => TrackStepKeeps(s, t, render);
    case OtherLine(_) =>
  }

  lemma {:induction false} ImportKeeps(s: Pass, lines: seq<Line>, render: Render)
    requires Proper(s)
    ensures Proper(Import(s, lines, render).0) && Extends(s.db, Import(s, lines, render).0.db)
    decreases lines
  {
    hide LineStep, WellKept;
    if lines != [] && LineStep(s, lines[0], render).Success? {
      var s' := LineStep(s, lines[0], render).value;
      LineStepKeeps(s, lines[0], render);
      ImportKeeps(s', lines[1..], render);
      ExtendsOn(s.db, s'.db, Import(s', lines[1..], render).0.db);
    }
    hide Extends, Proper;
  }

  /** Whatever the lines, importing never brings a withdrawn release or track back, never changes a
      text, and never adds a track under a withdrawn release. */
  lemma TakedownsStand(db: Db, lines: seq<Line>, render: Render)
    requires WellKept(db)
    ensures WellKept(Import(Begin(db), lines, render).0.db) && Extends(db, Import(Begin(db), lines, render).0.db)
  {
    ImportKeeps(Begin(db), lines, render);
    hide Import, Extends, WellKept;
  }

  // -- Accounting --------------------------------------------------------------

  function TracksIn(lines: seq<Line>): nat {
    if lines == [] then 0 else (if lines[0].OfTrack? then 1 else 0) + TracksIn(lines[1..])
  }

  /** Every track line passed is counted in exactly one of the four outcomes: all of them, when the
      pass reaches the end. */
  lemma {:induction false} EveryTrackIsCounted(s: Pass, lines: seq<Line>, render: Render)
    requires Import(s, lines, render).1.None?
    ensures Import(s, lines, render).0.stats.Tracks() == s.stats.Tracks() + TracksIn(lines)
    decreases lines
  {
    if lines != [] {
      var s' := LineStep(s, lines[0], render).value;
      assert s'.stats.Tracks() == s.stats.Tracks() + (if lines[0].OfTrack? then 1 else 0) by {
        hide GetOrCreateRelease, FindIdenticalTrack, CreateTrack, Relink, ParseOshash, Parse;
      }
      hide LineStep;
      EveryTrackIsCounted(s', lines[1..], render);
    }
  }

  /** The release of the line is withdrawn here. */
  predicate Withheld(s: Pass, t: TrackLine) {
    t.releaseId in s.releaseIds && s.releaseIds[t.releaseId] == 0
  }

  predicate Unreadable(s: Pass, t: TrackLine, render: Render) {
    t.releaseId in s.releaseIds && s.releaseIds[t.releaseId] != 0 && render(t.body).None?
  }

  /** A row here says the text of the line in the same release and language. */
  predicate Present(s: Pass, t: TrackLine, render: Render) {
    && t.releaseId in s.releaseIds && s.releaseIds[t.releaseId] != 0 && render(t.body).Some?
    && exists x :: x in s.db.tracks && RowSays(s.db.tracks[x], s.releaseIds[t.releaseId], t.lang, render(t.body).value)
  }

  predicate RowSays(row: TrackRow, releaseId: int, lang: string, body: string) {
    row.releaseId == releaseId && row.lang == lang && row.body == body
  }

  function One(b: bool): nat {
    if b then 1 else 0
  }

  /** Which count a track line goes to. What is imported is one row more. */
  lemma TrackIsCountedAs(s: Pass, t: TrackLine, render: Render)
    requires WellKept(s.db) && TrackStep(s, t, render).Success?
    ensures var after := TrackStep(s, t, render).value;
            && after.stats.withdrawn == s.stats.withdrawn + One(Withheld(s, t))
            && after.stats.skipped == s.stats.skipped + One(Unreadable(s, t, render))
            && after.stats.duplicate == s.stats.duplicate + One(Present(s, t, render))
            && after.stats.imported == s.stats.imported +
               One(!Withheld(s, t) && !Unreadable(s, t, render) && !Present(s, t, render))
            && after.stats.releases == s.stats.releases
            && |after.db.tracks| - |s.db.tracks| == after.stats.imported - s.stats.imported
  {
    if t.releaseId in s.releaseIds && s.releaseIds[t.releaseId] != 0 && render(t.body).Some? {
      FoundIffPresent(s, t, render);
      TextIsCounted(s, t, render);
    }
    hide FindIdenticalTrack, CreateTrack, Relink, Present, WellKept;
  }

  lemma TextIsCounted(s: Pass, t: TrackLine, render: Render)
    requires WellKept(s.db) && TrackStep(s, t, render).Success?
    requires t.releaseId in s.releaseIds && s.releaseIds[t.releaseId] != 0 && render(t.body).Some?
    ensures var after := TrackStep(s, t, render).value;
            var x := FindIdenticalTrack(s.db, s.releaseIds[t.releaseId], t.lang, render(t.body).value);
            if x != 0 then
              |after.db.tracks| == |s.db.tracks| && after.stats == s.stats.(duplicate := s.stats.duplicate + 1)
            else
              |after.db.tracks| == |s.db.tracks| + 1 && after.stats == s.stats.(imported := s.stats.imported + 1)
  {
    hide Relink, MayInsert;
    var x := FindIdenticalTrack(s.db, s.releaseIds[t.releaseId], t.lang, render(t.body).value);
    assert x != 0 ==> x in s.db.tracks;
    hide FindIdenticalTrack;
    var after := TrackStep(s, t, render).value;
    if x != 0 {
      assert after.db.tracks.Keys == s.db.tracks.Keys;
      assert |after.db.tracks| == |after.db.tracks.Keys|;
    } else {
      assert s.db.nextTrack !in s.db.tracks;
    }
    hide WellKept;
  }

  lemma FoundIffPresent(s: Pass, t: TrackLine, render: Render)
    requires WellKept(s.db)
    requires t.releaseId in s.releaseIds && s.releaseIds[t.releaseId] != 0 && render(t.body).Some?
    ensures FindIdenticalTrack(s.db, s.releaseIds[t.releaseId], t.lang, render(t.body).value) != 0 <==>
            Present(s, t, render)
    ensures var x := FindIdenticalTrack(s.db, s.releaseIds[t.releaseId], t.lang, render(t.body).value);
            x != 0 ==> x in s.db.tracks
  {
  }

  /** A release is withheld exactly when it is here and withdrawn. */
  lemma ReleaseIsWithheldIff(s: Pass, id: int, oshash: string, phash: Option<string>, durationMs: int)
    requires WellKept(s.db) && ReleaseStep(s, id, oshash, phash, durationMs).Success?
    ensures var after := ReleaseStep(s, id, oshash, phash, durationMs).value;
            && id in after.releaseIds && after.stats == s.stats.(releases := s.stats.releases + 1)
            && (after.releaseIds[id] == 0 <==>
                exists r :: r in s.db.releases && Some(s.db.releases[r].oshash) == ParseOshash(oshash)
                            && s.db.releases[r].withdrawn.Some?)
  {
    hide ParseOshash, Parse;
    var ph := if phash.Some? then Parse(phash.value) else None;
    GetOrCreateReleaseFinds(s.db, ParseOshash(oshash).value, ph, durationMs);
  }

  /** Lines of the pass that meet `fate`, when their turn comes. */
  function Met(s: Pass, lines: seq<Line>, render: Render, fate: (Pass, TrackLine) -> bool): nat
    decreases lines
  {
    if lines == [] || LineStep(s, lines[0], render).Failure? then 0
    else
      One(lines[0].OfTrack? && fate(s, lines[0].track)) +
      Met(LineStep(s, lines[0], render).value, lines[1..], render, fate)
  }

  lemma OtherLineCountsNothing(s: Pass, line: Line, render: Render)
    requires WellKept(s.db) && !line.OfTrack? && LineStep(s, line, render).Success?
    ensures var after := LineStep(s, line, render).value;
            after.stats == s.stats.(releases := after.stats.releases) && after.db.tracks == s.db.tracks
  {
    hide ParseOshash, Parse;
  }

  /** Over any pass, finished or not: the counts of withheld, unreadable and present lines, and as many
      imported as there are rows more. */
  lemma {:induction false} CountsSayWhatHappened(s: Pass, lines: seq<Line>, render: Render)
    requires Proper(s)
    ensures var after := Import(s, lines, render).0;
            && after.stats.withdrawn == s.stats.withdrawn + Met(s, lines, render, Withheld)
            && after.stats.skipped == s.stats.skipped + Met(s, lines, render, (p, t) => Unreadable(p, t, render))
            && after.stats.duplicate == s.stats.duplicate + Met(s, lines, render, (p, t) => Present(p, t, render))
            && after.stats.imported - s.stats.imported == |after.db.tracks| - |s.db.tracks|
    decreases lines
  {
    hide Withheld, Unreadable, Present;
    if lines != [] && LineStep(s, lines[0], render).Success? {
      var s' := LineStep(s, lines[0], render).value;
      LineStepKeeps(s, lines[0], render);
      CountsSayWhatHappened(s', lines[1..], render);
      LineUnfolds(s, lines[0], render);
      if lines[0].OfTrack? {
        TrackIsCountedAs(s, lines[0].track, render);
      } else {
        OtherLineCountsNothing(s, lines[0], render);
      }
      hide LineStep, TrackStep, Proper, Extends, WellKept;
    }
  }

  // -- Stops -----------------------------------------------------------------------------

  /** Sixteen hex digits of either case parse as an oshash, to their lower case, and nothing else does. */
  lemma OshashParsesIff(s: string)
    ensures ParseOshash(s).Some? <==> |s| == 16 && Hex.AllHexDigits(s)
    ensures ParseOshash(s).Some? ==>
              var lower := ParseOshash(s).value;
              |lower| == 16 && Lookups.IsLowerHex(lower) && ParseOshash(lower) == Some(lower)
              && forall i :: 0 <= i < 16 ==> Hex.DigitValue(lower[i]) == Hex.DigitValue(s[i])
  {
    var lower := Lookups.ToLower(s);
    assert forall i :: 0 <= i < |s| ==> lower[i] == if 'A' <= s[i] <= 'Z' then s[i] + 32 as char else s[i];
    if Lookups.IsLowerHex(lower) {
      forall i | 0 <= i < |s| ensures Hex.IsHexDigit(s[i]) {
        assert lower[i] in lower;
      }
      assert Lookups.ToLower(lower) == lower by {
        assert forall i :: 0 <= i < |lower| ==> lower[i] in lower;
      }
    }
    if Hex.AllHexDigits(s) {
      forall c | c in lower ensures '0' <= c <= '9' || 'a' <= c <= 'f' {
        var i :| 0 <= i < |lower| && lower[i] == c;
        assert Hex.IsHexDigit(s[i]);
      }
    }
  }

  /** What is wrong with a line that stops a pass. */
  predicate AtFault(s: Pass, line: Line, render: Render, stop: Stop) {
    match stop
    case WrongFormat => line.MetaLine? && line.format != 1
    case BadOshash => line.ReleaseLine? && !(|line.oshash| == 16 && Hex.AllHexDigits(line.oshash))
    case BadPhash =>
      && line.ReleaseLine? && |line.oshash| == 16 && Hex.AllHexDigits(line.oshash) && line.phash.Some?
      && !(1 <= |line.phash.value| <= 16 && Hex.AllHexDigits(line.phash.value))
    case UnseenRelease => line.OfTrack? && line.track.releaseId !in s.releaseIds
    case StoreRefused => line.OfTrack? && NewUnderTakenParent(s, line.track, render)
    case UnknownKind => line.OtherLine?
  }

  /** A line stops a pass exactly for these faults, and the error names the one. */
  lemma StopsIffAtFault(s: Pass, line: Line, render: Render, stop: Stop)
    requires Proper(s) && Anchored(s)
    ensures LineStep(s, line, render) == Failure(stop) <==> AtFault(s, line, render, stop)
  {
    hide Hex.AllHexDigits, ParseOshash, Parse, WellKept, TrackStep;
    LineUnfolds(s, line, render);
    hide LineStep;
    match line
    case MetaLine(_) =>
    case ReleaseLine(id, oshash, phash, durationMs) =>
      OshashParsesIff(oshash);
      if phash.Some? {
        ParsesIff(phash.value);
      }
    case OfTrack(t) =>
      RefusedIff(s, t, render);
      TrackStopsFor(s, t, render);
      hide NewUnderTakenParent;
    case OtherLine(_) =>
  }

  lemma TrackStopsFor(s: Pass, t: TrackLine, render: Render)
    ensures TrackStep(s, t, render) == Failure(UnseenRelease) <==> t.releaseId !in s.releaseIds
    ensures TrackStep(s, t, render).Failure? ==> TrackStep(s, t, render).error in {UnseenRelease, StoreRefused}
    ensures TrackStep(s, t, render) == Failure(StoreRefused) ==> t.releaseId in s.releaseIds
  {
    hide FindIdenticalTrack, MayInsert, Relink;
  }

  /** A pass that stops has imported everything before the line it stopped at, and that line is to
      blame. */
  lemma {:induction false} StopsAtTheBadLine(s: Pass, lines: seq<Line>, render: Render) returns (n: nat)
    requires Import(s, lines, render).1.Some?
    ensures n < |lines| && Import(s, lines[..n], render) == (Import(s, lines, render).0, None)
    ensures LineStep(Import(s, lines, render).0, lines[n], render) == Failure(Import(s, lines, render).1.value)
    decreases lines
  {
    hide LineStep;
    n := 0;
    if LineStep(s, lines[0], render).Success? {
      var m := StopsAtTheBadLine(LineStep(s, lines[0], render).value, lines[1..], render);
      n := m + 1;
      assert lines[..n][1..] == lines[1..][..m];
    }
  }

  // -- Refused lines -----------------------------------------------------------------

  /** Every remembered track is here. */
  ghost predicate Anchored(s: Pass) {
    forall y :: y in s.trackIds ==> s.trackIds[y] in s.db.tracks
  }

  /** The text is new here, and the revision's parent, as it is here, already has a live successor. */
  predicate NewUnderTakenParent(s: Pass, t: TrackLine, render: Render) {
    && t.releaseId in s.releaseIds && s.releaseIds[t.releaseId] != 0 && render(t.body).Some?
    && FindIdenticalTrack(s.db, s.releaseIds[t.releaseId], t.lang, render(t.body).value) == 0
    && t.supersedes.Some? && t.supersedes.value in s.trackIds && t.supersedes.value in s.trackRoots
    && Superseded(s.db, s.trackIds[t.supersedes.value])
  }

  /** When the store refuses a line. */
  lemma RefusedIff(s: Pass, t: TrackLine, render: Render)
    requires Proper(s) && Anchored(s)
    ensures TrackStep(s, t, render) == Failure(StoreRefused) <==> NewUnderTakenParent(s, t, render)
  {
    hide FindIdenticalTrack, Superseded, WellKept;
  }

  lemma StepStaysAnchored(s: Pass, line: Line, render: Render)
    requires Proper(s) && Anchored(s) && LineStep(s, line, render).Success?
    ensures Anchored(LineStep(s, line, render).value)
  {
    LineStepKeeps(s, line, render);
    var s' := LineStep(s, line, render).value;
    forall y | y in s.trackIds ensures s.trackIds[y] in s'.db.tracks {
      assert s.trackIds[y] in s.db.tracks;
      hide LineStep;
    }
    hide WellKept, Extends, Proper, ReleaseStep, FindIdenticalTrack, Superseded, Relink;
    if line.OfTrack? {
      StepRemembersARow(s, line.track, render);
    } else if line.ReleaseLine? {
      ReleaseStepRemembers(s, line.id, line.oshash, line.phash, line.durationMs);
    }
    hide TrackStep;
  }

  lemma StepRemembersARow(s: Pass, t: TrackLine, render: Render)
    requires TrackStep(s, t, render).Success?
    ensures var s' := TrackStep(s, t, render).value;
            s'.trackIds == s.trackIds ||
            (t.id in s'.trackIds && s'.trackIds == s.trackIds[t.id := s'.trackIds[t.id]] &&
                s'.trackIds[t.id] in s'.db.tracks)
  {
    hide MayInsert, Relink;
  }

  lemma ReleaseStepRemembers(s: Pass, id: int, oshash: string, phash: Option<string>, durationMs: int)
    requires ReleaseStep(s, id, oshash, phash, durationMs).Success?
    ensures ReleaseStep(s, id, oshash, phash, durationMs).value.trackIds == s.trackIds
  {
    hide ParseOshash, Parse, GetOrCreateRelease;
  }

  lemma {:induction false} ImportStaysAnchored(s: Pass, lines: seq<Line>, render: Render)
    requires Proper(s) && Anchored(s)
    ensures Anchored(Import(s, lines, render).0)
    decreases lines
  {
    hide LineStep, Proper, Anchored;
    if lines != [] && LineStep(s, lines[0], render).Success? {
      LineStepKeeps(s, lines[0], render);
      StepStaysAnchored(s, lines[0], render);
      ImportStaysAnchored(LineStep(s, lines[0], render).value, lines[1..], render);
    }
  }

  /** An import the store refuses stopped at a new text whose parent already has a live successor
      here. */
  lemma StopsAtATakenParent(db: Db, lines: seq<Line>, render: Render) returns (n: nat)
    requires WellKept(db) && Import(Begin(db), lines, render).1 == Some(StoreRefused)
    ensures n < |lines| && lines[n].OfTrack? &&
            Import(Begin(db), lines[..n], render) == (Import(Begin(db), lines, render).0, None)
    ensures NewUnderTakenParent(Import(Begin(db), lines, render).0, lines[n].track, render)
  {
    n := StopsAtTheBadLine(Begin(db), lines, render);
    ImportKeeps(Begin(db), lines, render);
    ImportStaysAnchored(Begin(db), lines, render);
    var s := Import(Begin(db), lines, render).0;
    hide Import, Extends, Proper, Anchored, NewUnderTakenParent, ParseOshash, Parse;
    LineUnfolds(s, lines[n], render);
    hide LineStep, TrackStep;
    if lines[n].OfTrack? {
      RefusedIff(s, lines[n].track, render);
    }
  }

  class Mirror {
    var db: Db

    method ImportRelease(oshash: string, phash: Option<string>, durationMs: int) returns (r: Result<int, Stop>)
      requires WellKept(db)
      modifies this`db
      ensures r.Failure? ==> db == old(db)
      ensures r == if ParseOshash(oshash).None? then Failure(BadOshash)
                   else if phash.Some? && Parse(phash.value).None? then Failure(BadPhash)
                   else Success(GetOrCreateRelease(old(db), ParseOshash(oshash).value,
                                                   if phash.Some? then Parse(phash.value) else None, durationMs).1)
      ensures r.Success? ==>
                db == GetOrCreateRelease(old(db), ParseOshash(oshash).value,
                                         if phash.Some? then Parse(phash.value) else None, durationMs).0
                && r.value in db.releases
    {
      var oh := ParseOshash(oshash);
      if oh.None? {
        return Failure(BadOshash);
      }
      var ph: Option<PHash> := None;
      if phash.Some? {
        ph := Parse(phash.value);
        if ph.None? {
          return Failure(BadPhash);
        }
      }
      GetOrCreateReleaseFinds(db, oh.value, ph, durationMs);
      var (after, id) := GetOrCreateRelease(db, oh.value, ph, durationMs);
      db := after;
      return Success(id);
    }

    /** id 0 means the text did not parse. */
    method ImportTrack(releaseId: int, t: TrackLine, parent: Option<int>, parentRoot: int, render: Render)
      returns (r: Result<(int, int, bool), Stop>)
      requires WellKept(db)
      modifies this`db
      ensures render(t.body).Some? && r.Success? ==> r.value.0 != 0
      ensures render(t.body).None? ==> db == old(db) && r == Success((0, 0, false))
      ensures render(t.body).Some? ==>
                var existing := FindIdenticalTrack(old(db), releaseId, t.lang, render(t.body).value);
                if existing != 0 then
                  db == SetKind(old(db), existing, KindOf(t), t.kindLabel)
                  && r == Success((existing, old(db).tracks[existing].root, false))
                else
                  match CreateTrack(old(db), RowOf(t, releaseId, render(t.body).value, parent, parentRoot))
                  case None => db == old(db) && r == Failure(StoreRefused)
                  case Some((after, id)) =>
                    db == after && r == Success((id, if parentRoot == 0 then id else parentRoot, true))
    {
      var rendered := render(t.body);
      if rendered.None? {
        return Success((0, 0, false));
      }
      var kind := t.kind;
      if kind == "" {
        kind := "default";
      }
      var existing := FindIdenticalTrack(db, releaseId, t.lang, rendered.value);
      if existing != 0 {
        db := SetKind(db, existing, kind, t.kindLabel);
        return Success((existing, db.tracks[existing].root, false));
      }
      match CreateTrack(db, RowOf(t, releaseId, rendered.value, parent, parentRoot)) {
        case None => return Failure(StoreRefused);
        case Some((after, id)) =>
          db := after;
          var root := parentRoot;
          if root == 0 {
            root := id;
          }
          return Success((id, root, true));
      }
    }

    method RunImport(lines: seq<Line>, render: Render) returns (stats: Stats, stop: Option<Stop>)
      requires WellKept(db)
      modifies this`db
      ensures var (s, e) := Import(Begin(old(db)), lines, render); (db, stats, stop) == (s.db, s.stats, e)
    {
      hide LineStep, WellKept, Import, GetOrCreateRelease, CreateTrack;
      ghost var start := Begin(db);
      var releaseIds: map<int, int> := map[];
      var trackIds: map<int, int> := map[];
      var trackRoots: map<int, int> := map[];
      stats := Stats(0, 0, 0, 0, 0);
      NothingImported(start, lines, render);
      for i := 0 to |lines|
        invariant Import(start, lines[..i], render) == (Pass(db, releaseIds, trackIds, trackRoots, stats), None)
        invariant Proper(Pass(db, releaseIds, trackIds, trackRoots, stats))
      {
        ghost var s := Pass(db, releaseIds, trackIds, trackRoots, stats);
        ImportOneMore(start, lines, i, render);
        LineUnfolds(s, lines[i], render);
        if LineStep(s, lines[i], render).Success? {
          LineStepKeeps(s, lines[i], render);
        }
        match lines[i] {
          case MetaLine(format) =>
            if format != FORMAT {
              return stats, Some(WrongFormat);
            }
          case ReleaseLine(id, oshash, phash, durationMs) =>
            var local := ImportRelease(oshash, phash, durationMs);
            match local {
              case Failure(why) =>
                return stats, Some(why);
              case Success(r) =>
                releaseIds := releaseIds[id := if db.releases[r].withdrawn.Some? then 0 else r];
                stats := stats.(releases := stats.releases + 1);
            }
          case OfTrack(t) =>
            if t.releaseId !in releaseIds {
              return stats, Some(UnseenRelease);
            }
            var localReleaseId := releaseIds[t.releaseId];
            if localReleaseId == 0 {
              stats := stats.(withdrawn := stats.withdrawn + 1);
              continue;
            }
            var parentLocal: Option<int>, parentRoot := None, 0;
            if t.supersedes.Some? {
              var p := t.supersedes.value;
              if p in trackIds && p in trackRoots {
                parentLocal, parentRoot := Some(trackIds[p]), trackRoots[p];
              } else if t.root in trackRoots {
                parentRoot := trackRoots[t.root];
              }
            }
            var outcome := ImportTrack(localReleaseId, t, parentLocal, parentRoot, render);
            match outcome {
              case Failure(why) =>
                return stats, Some(why);
              case Success((local, root, imported)) =>
                if local != 0 {
                  trackIds := trackIds[t.id := local];
                  trackRoots := trackRoots[t.id := root];
                }
                if imported {
                  stats := stats.(imported := stats.imported + 1);
                } else if local != 0 {
                  stats := stats.(duplicate := stats.duplicate + 1);
                } else {
                  stats := stats.(skipped := stats.skipped + 1);
                }
            }
          case OtherLine(_) =>
            return stats, Some(UnknownKind);
        }
      }
      assert lines[..|lines|] == lines;
      return stats, None;
    }
  }

  lemma NothingImported(s: Pass, lines: seq<Line>, render: Render)
    ensures Import(s, lines[..0], render) == (s, None)
    ensures WellKept(s.db) && s.releaseIds == map[] ==> Proper(s)
  {
  }

  lemma LineUnfolds(s: Pass, line: Line, render: Render)
    ensures line.MetaLine? ==>
              LineStep(s, line, render) == if line.format != FORMAT then Failure(WrongFormat) else Success(s)
    ensures line.ReleaseLine? ==>
              LineStep(s, line, render) == ReleaseStep(s, line.id, line.oshash, line.phash, line.durationMs)
    ensures line.OfTrack? ==> LineStep(s, line, render) == TrackStep(s, line.track, render)
    ensures line.OtherLine? ==> LineStep(s, line, render) == Failure(UnknownKind)
  {
  }
}
