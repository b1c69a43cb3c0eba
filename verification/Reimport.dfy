/** Importing the same dump again changes nothing. */
module Reimport {
  import opened Wrappers
  import opened Catalogue
  import opened Dumps
  import opened Imports

  ghost predicate SameRemembered(a: Pass, b: Pass) {
    a.releaseIds == b.releaseIds && a.trackIds == b.trackIds && a.trackRoots == b.trackRoots
  }

  /** The second pass `b` next to the first pass `a` at the same line, when the first ended with
      `f`: it remembers the same, its tables are `f` but for kinds, and of the kinds those touched so
      far are the first pass's. */
  ghost predicate Echoes(a: Pass, b: Pass, f: Db, touched: set<int>) {
    && SameRemembered(a, b)
    && b.db == f.(tracks := b.db.tracks) && b.db.tracks.Keys == f.tracks.Keys
    && (forall t :: t in f.tracks ==> SameButKind(f.tracks[t], b.db.tracks[t]))
    && (forall t :: t in touched ==> t in a.db.tracks && t in b.db.tracks && SameKind(a.db.tracks[t], b.db.tracks[t]))
    && (forall t :: t in f.tracks && t !in touched ==> b.db.tracks[t] == f.tracks[t])
  }

  predicate SameKind(t: TrackRow, u: TrackRow) {
    t.kind == u.kind && t.kindLabel == u.kindLabel
  }

  lemma FindIs(db: Db, releaseId: int, lang: string, body: string, t: int)
    requires WellKept(db) && t in db.tracks && Says(db.tracks[t], releaseId, lang, body)
    requires forall u :: 1 <= u < t && u in db.tracks ==> !Says(db.tracks[u], releaseId, lang, body)
    ensures FindIdenticalTrack(db, releaseId, lang, body) == t
  {
  }

  /** Later imports never come before an identical track already found, or just created. */
  lemma FindStays(a: Db, f: Db, b: Db, releaseId: int, lang: string, body: string, t: int)
    requires WellKept(a) && WellKept(b) && Extends(a, f) && b.tracks.Keys == f.tracks.Keys
    requires forall u :: u in f.tracks ==> SameButKind(f.tracks[u], b.tracks[u])
    requires t in a.tracks && t == FindIdenticalTrack(a, releaseId, lang, body)
    ensures FindIdenticalTrack(b, releaseId, lang, body) == t
  {
    hide IdenticalFrom;
    FoundIsLowest(a, releaseId, lang, body);
    assert SameButKind(a.tracks[t], f.tracks[t]) && SameButKind(f.tracks[t], b.tracks[t]);
    forall u | 1 <= u < t && u in b.tracks ensures !Says(b.tracks[u], releaseId, lang, body) {
      assert SameButKind(f.tracks[u], b.tracks[u]);
      assert u in a.tracks && SameButKind(a.tracks[u], f.tracks[u]);
    }
    FindIs(b, releaseId, lang, body, t);
  }

  lemma FoundIsLowest(db: Db, releaseId: int, lang: string, body: string)
    ensures var t := FindIdenticalTrack(db, releaseId, lang, body);
            && (t != 0 ==> t in db.tracks && t >= 1 && Says(db.tracks[t], releaseId, lang, body))
            && (forall u :: 1 <= u < (if t != 0 then t else db.nextTrack) && u in db.tracks ==>
               !Says(db.tracks[u], releaseId, lang, body))
  {
  }

  /** A line whose text the node already holds corrects that row's kind and remembers it. */
  lemma FoundStep(b: Pass, t: TrackLine, render: Render, id: int)
    requires t.releaseId in b.releaseIds && b.releaseIds[t.releaseId] != 0 && render(t.body).Some?
    requires id != 0 && id in b.db.tracks &&
             id == FindIdenticalTrack(b.db, b.releaseIds[t.releaseId], t.lang, render(t.body).value)
    ensures TrackStep(b, t, render) == Success(
              b.(db := SetKind(b.db, id, KindOf(t), t.kindLabel), trackIds := b.trackIds[t.id := id],
                 trackRoots := b.trackRoots[t.id := b.db.tracks[id].root],
                 stats := b.stats.(duplicate := b.stats.duplicate + 1)))
  {
  }

  lemma EchoKind(a: Pass, b: Pass, a': Pass, b': Pass, f: Db, touched: set<int>, id: int, kind: string,
                 kindLabel: Option<string>)
    requires Echoes(a, b, f, touched) && SameRemembered(a', b') && id in f.tracks && id in a'.db.tracks
    requires b'.db == SetKind(b.db, id, kind, kindLabel)
    requires a'.db.tracks[id].kind == kind && a'.db.tracks[id].kindLabel == kindLabel
    requires forall u :: u in a.db.tracks && u != id ==> u in a'.db.tracks && a'.db.tracks[u] == a.db.tracks[u]
    ensures Echoes(a', b', f, touched + {id})
  {
    assert SameButKind(f.tracks[id], b.db.tracks[id]);
  }

  /** A track found or created by the first pass is found by the second, and given the same kind. */
  lemma EchoTrack(a: Pass, b: Pass, f: Db, touched: set<int>, t: TrackLine, render: Render) returns (more: set<int>)
    requires Proper(a) && WellKept(b.db) && Echoes(a, b, f, touched)
    requires TrackStep(a, t, render).Success? && Extends(TrackStep(a, t, render).value.db, f)
    ensures TrackStep(b, t, render).Success?
    ensures WellKept(TrackStep(b, t, render).value.db)
    ensures Echoes(TrackStep(a, t, render).value, TrackStep(b, t, render).value, f, more)
  {
    more := touched;
    if a.releaseIds[t.releaseId] != 0 && render(t.body).Some? {
      var a' := TrackStep(a, t, render).value;
      var id := a'.trackIds[t.id];
      TouchedRow(a, t, render);
      more := touched + {id};
      EchoFound(a, b, a', f, touched, t, render, id);
    } else {
      hide WellKept, Extends;
    }
  }

  lemma EchoFound(a: Pass, b: Pass, a': Pass, f: Db, touched: set<int>, t: TrackLine, render: Render, id: int)
    requires WellKept(a'.db) && WellKept(b.db) && Echoes(a, b, f, touched) && Extends(a'.db, f)
    requires t.releaseId in a.releaseIds && a.releaseIds[t.releaseId] != 0 && render(t.body).Some?
    requires id != 0 && id in a'.db.tracks && a'.db.tracks[id].kind == KindOf(t) &&
             a'.db.tracks[id].kindLabel == t.kindLabel
    requires id == FindIdenticalTrack(a'.db, a.releaseIds[t.releaseId], t.lang, render(t.body).value)
    requires a'.trackIds == a.trackIds[t.id := id] && a'.trackRoots == a.trackRoots[t.id := a'.db.tracks[id].root]
    requires a'.releaseIds == a.releaseIds
    requires forall u :: u in a.db.tracks && u != id ==> u in a'.db.tracks && a'.db.tracks[u] == a.db.tracks[u]
    ensures TrackStep(b, t, render).Success? && WellKept(TrackStep(b, t, render).value.db)
    ensures Echoes(a', TrackStep(b, t, render).value, f, touched + {id})
  {
    FindStays(a'.db, f, b.db, a.releaseIds[t.releaseId], t.lang, render(t.body).value, id);
    FoundStep(b, t, render, id);
    KindKeepsKept(b.db, id, KindOf(t), t.kindLabel);
    assert SameButKind(a'.db.tracks[id], f.tracks[id]) && SameButKind(f.tracks[id], b.db.tracks[id]);
    hide WellKept, Extends, TrackStep, FindIdenticalTrack;
    EchoKind(a, b, a', TrackStep(b, t, render).value, f, touched, id, KindOf(t), t.kindLabel);
    hide Echoes, SetKind;
  }

  /** What a line that is neither skipped nor dropped leaves behind: one row that says what it says,
      the lowest such, with its kind. */
  lemma TouchedRow(a: Pass, t: TrackLine, render: Render)
    requires Proper(a) && TrackStep(a, t, render).Success?
    requires a.releaseIds[t.releaseId] != 0 && render(t.body).Some?
    ensures var a' := TrackStep(a, t, render).value;
            var id := a'.trackIds[t.id];
            && id != 0 && id in a'.db.tracks && WellKept(a'.db)
            && id == FindIdenticalTrack(a'.db, a.releaseIds[t.releaseId], t.lang, render(t.body).value)
            && a'.db.tracks[id].kind == KindOf(t) && a'.db.tracks[id].kindLabel == t.kindLabel
            && a'.trackRoots[t.id] == a'.db.tracks[id].root
            && a'.trackIds == a.trackIds[t.id := id] && a'.trackRoots == a.trackRoots[t.id := a'.db.tracks[id].root]
            && a'.releaseIds == a.releaseIds
            && (forall u :: u in a.db.tracks && u != id ==> u in a'.db.tracks && a'.db.tracks[u] == a.db.tracks[u])
  {
    var a' := TrackStep(a, t, render).value;
    var releaseId, body := a.releaseIds[t.releaseId], render(t.body).value;
    TrackStepKeeps(a, t, render);
    FoundIsLowest(a.db, releaseId, t.lang, body);
    hide IdenticalFrom;
    var existing := FindIdenticalTrack(a.db, releaseId, t.lang, body);
    if existing == 0 {
      assert a.db.nextTrack !in a.db.tracks && a.db.nextTrack >= 1;
      hide MayInsert, Relink;
    }
    FindIs(a'.db, releaseId, t.lang, body, a'.trackIds[t.id]);
    hide WellKept, Extends;
  }

  lemma EchoRelease(a: Pass, b: Pass, f: Db, touched: set<int>, id: int, oshash: string, phash: Option<string>,
                    durationMs: int, render: Render)
    requires Proper(a) && WellKept(b.db) && WellKept(f) && Echoes(a, b, f, touched)
    requires ReleaseStep(a, id, oshash, phash, durationMs).Success?
    requires Extends(ReleaseStep(a, id, oshash, phash, durationMs).value.db, f)
    ensures ReleaseStep(b, id, oshash, phash, durationMs).Success?
    ensures ReleaseStep(b, id, oshash, phash, durationMs).value.db == b.db
    ensures Echoes(ReleaseStep(a, id, oshash, phash, durationMs).value,
            ReleaseStep(b, id, oshash, phash, durationMs).value, f, touched)
  {
    hide GetOrCreateRelease, ParseOshash, PHashing.Parse, WellKept;
    var oh := ParseOshash(oshash).value;
    var ph := if phash.Some? then PHashing.Parse(phash.value) else None;
    GetOrCreateReleaseFinds(a.db, oh, ph, durationMs);
    var (after, r) := GetOrCreateRelease(a.db, oh, ph, durationMs);
    assert r in f.releases && f.releases[r] == after.releases[r];
    hide Extends;
    ReleaseIsFound(b.db, oh, ph, durationMs, r);
  }

  lemma ReleaseIsFound(db: Db, oshash: string, phash: Option<PHashing.PHash>, durationMs: int, r: int)
    requires WellKept(db) && r in db.releases && db.releases[r].oshash == oshash
    ensures GetOrCreateRelease(db, oshash, phash, durationMs) == (db, r)
  {
    GetOrCreateReleaseFinds(db, oshash, phash, durationMs);
    hide GetOrCreateRelease;
  }

  lemma EchoRefusal(a: Pass, b: Pass, touched: set<int>, line: Line, render: Render)
    requires Proper(a) && WellKept(b.db) && Echoes(a, b, a.db, touched) && LineStep(a, line, render).Failure?
    ensures LineStep(b, line, render) == LineStep(a, line, render)
    ensures b.db == a.db
  {
    assert b.db.tracks == a.db.tracks by {
      forall t | t in a.db.tracks ensures b.db.tracks[t] == a.db.tracks[t] {
        assert SameButKind(a.db.tracks[t], b.db.tracks[t]);
      }
    }
    hide GetOrCreateRelease, FindIdenticalTrack, CreateTrack, ParseOshash;
  }

  lemma {:induction false} SecondPassEchoes(a: Pass, b: Pass, lines: seq<Line>, touched: set<int>, render: Render)
    requires Proper(a) && WellKept(b.db)
    requires Echoes(a, b, Import(a, lines, render).0.db, touched)
    ensures Import(b, lines, render).1 == Import(a, lines, render).1
    ensures Import(b, lines, render).0.db == Import(a, lines, render).0.db
    decreases lines
  {
    var f := Import(a, lines, render).0.db;
    ImportKeeps(a, lines, render);
    if lines == [] || LineStep(a, lines[0], render).Failure? {
      assert b.db.tracks == a.db.tracks by {
        forall t | t in a.db.tracks ensures b.db.tracks[t] == a.db.tracks[t] {
          assert SameButKind(a.db.tracks[t], b.db.tracks[t]);
        }
      }
      if lines != [] {
        EchoRefusal(a, b, touched, lines[0], render);
      }
    } else {
      var a' := LineStep(a, lines[0], render).value;
      LineStepKeeps(a, lines[0], render);
      ImportKeeps(a', lines[1..], render);
      var more := touched;
      match lines[0] {
        case MetaLine(_) =>
        case ReleaseLine(id, oshash, phash, durationMs) =>
          EchoRelease(a, b, f, touched, id, oshash, phash, durationMs, render);
        case OfTrack(t) =>
          more := EchoTrack(a, b, f, touched, t, render);
        case OtherLine(_) =>
      }
      hide ReleaseStep, TrackStep, Echoes, Extends, Proper, WellKept;
      SecondPassEchoes(a', LineStep(b, lines[0], render).value, lines[1..], more, render);
    }
  }

  /** Importing a dump a second time, into any node, leaves the tables as the first time left them,
      and stops where and why the first time stopped, if it did. */
  lemma ImportIsIdempotent(db: Db, lines: seq<Line>, render: Render)
    requires WellKept(db)
    ensures var (once, stop) := Import(Begin(db), lines, render);
            var (twice, again) := Import(Begin(once.db), lines, render);
            twice.db == once.db && again == stop
  {
    var once := Import(Begin(db), lines, render).0;
    ImportKeeps(Begin(db), lines, render);
    assert Echoes(Begin(db), Begin(once.db), once.db, {});
    hide Import, Echoes, Extends;
    SecondPassEchoes(Begin(db), Begin(once.db), lines, {}, render);
  }
}
