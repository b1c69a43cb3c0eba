/** writeDump in cmd/moansubs/dump.go over the paged queries of internal/store/dump.go. The
    releases and the tracks are read by separate queries, so the two walks may see different tables;
    each walk is taken to see one.
 */
module Dumps {
  import opened Wrappers
  import opened PHashing
  import opened Catalogue

  const FORMAT := 1
  const BATCH := 500

  datatype TrackLine = TrackLine(
    id: int, releaseId: int, lang: string, generated: bool, body: string, kind: string, kindLabel: Option<string>,
    root: int, revision: int, supersedes: Option<int>, authorship: string, declared: bool)

  datatype Line =
    | MetaLine(format: int)
    | ReleaseLine(id: int, oshash: string, phash: Option<string>, durationMs: int)
    | OfTrack(track: TrackLine)
    | OtherLine(kind: string)

  function ReleaseLineOf(id: int, r: ReleaseRow): Line {
    ReleaseLine(id, r.oshash, if r.phash.Some? then Some(ToString(r.phash.value)) else None, r.durationMs)
  }

  /** An uncredited track is dumped as a shared one. */
  function TrackLineOf(id: int, t: TrackRow): TrackLine {
    TrackLine(id, t.releaseId, t.lang, t.generated, t.body, t.kind, t.kindLabel, t.root, t.revision, t.supersedes,
              if t.authorship == "uncredited" then "shared" else t.authorship, t.declared)
  }

  predicate VisibleRelease(db: Db, id: int) {
    id in db.releases && db.releases[id].withdrawn.None?
  }

  /** Not withdrawn itself, nor through its release. */
  predicate VisibleTrack(db: Db, id: int) {
    id in db.tracks && db.tracks[id].Live() && VisibleRelease(db, db.tracks[id].releaseId)
  }

  /** The ids from 1 to `n` with property `p`, in order. */
  function IdsWhere(p: int -> bool, n: nat): seq<int> {
    if n == 0 then [] else IdsWhere(p, n - 1) + if p(n) then [n] else []
  }

  function Upto(next: int): nat {
    if next < 0 then 0 else next
  }

  function AllReleases(db: Db): seq<int> {
    IdsWhere(id => VisibleRelease(db, id), Upto(db.nextRelease))
  }

  function AllTracks(db: Db): seq<int> {
    IdsWhere(id => VisibleTrack(db, id), Upto(db.nextTrack))
  }

  ghost predicate Ascending(ids: seq<int>) {
    (forall i :: 0 <= i < |ids| ==> ids[i] >= 1) && forall i, j :: 0 <= i < j < |ids| ==> ids[i] < ids[j]
  }

  lemma {:induction false} IdsWhereLists(p: int -> bool, n: nat)
    ensures Ascending(IdsWhere(p, n))
    ensures forall id :: id in IdsWhere(p, n) <==> 1 <= id <= n && p(id)
  {
    if n > 0 {
      IdsWhereLists(p, n - 1);
      var init := IdsWhere(p, n - 1);
      assert forall i :: 0 <= i < |init| ==> init[i] in init;
    }
  }

  /** WHERE id > after ORDER BY id LIMIT limit. */
  function Page(ids: seq<int>, after: int, limit: nat): seq<int>
    decreases |ids|
  {
    if ids == [] || limit == 0 then []
    else if ids[0] > after then [ids[0]] + Page(ids[1..], after, limit - 1)
    else Page(ids[1..], after, limit)
  }

  /** All ids up to `after` are passed over. */
  lemma {:induction false} PageSkips(ids: seq<int>, pos: nat, after: int, limit: nat)
    requires pos <= |ids| && forall i :: 0 <= i < pos ==> ids[i] <= after
    ensures Page(ids, after, limit) == Page(ids[pos..], after, limit)
    decreases pos
  {
    if pos > 0 {
      var rest := ids[1..];
      assert rest[pos - 1..] == ids[pos..];
      assert forall i :: 0 <= i < pos - 1 ==> rest[i] == ids[i + 1];
      PageSkips(rest, pos - 1, after, limit);
    } else {
      assert ids[0..] == ids;
    }
  }

  /** Of ids all above `after`, a page takes the first. */
  lemma {:induction false} PageTakes(ids: seq<int>, after: int, limit: nat)
    requires forall i :: 0 <= i < |ids| ==> ids[i] > after
    ensures Page(ids, after, limit) == ids[..if limit <= |ids| then limit else |ids|]
    decreases |ids|
  {
    if ids != [] && limit != 0 {
      var rest := ids[1..];
      var n := if limit - 1 <= |rest| then limit - 1 else |rest|;
      PageTakes(rest, after, limit - 1);
      assert ids[..n + 1] == [ids[0]] + rest[..n];
    }
  }

  /** The page after the id at `pos - 1` is what follows it. */
  lemma PageFollows(ids: seq<int>, pos: nat, after: int, limit: nat)
    requires pos <= |ids|
    requires forall i :: 0 <= i < pos ==> ids[i] <= after
    requires forall i :: pos <= i < |ids| ==> ids[i] > after
    ensures Page(ids, after, limit) == ids[pos..if pos + limit <= |ids| then pos + limit else |ids|]
  {
    hide Page;
    var rest := ids[pos..];
    PageSkips(ids, pos, after, limit);
    assert forall i :: 0 <= i < |rest| ==> rest[i] == ids[pos + i];
    PageTakes(rest, after, limit);
  }

  function ReleaseLines(db: Db, ids: seq<int>): seq<Line>
    requires forall id :: id in ids ==> id in db.releases
  {
    seq(|ids|, i requires 0 <= i < |ids| => assert ids[i] in ids; ReleaseLineOf(ids[i], db.releases[ids[i]]))
  }

  function TrackLines(db: Db, ids: seq<int>): seq<Line>
    requires forall id :: id in ids ==> id in db.tracks
  {
    seq(|ids|, i requires 0 <= i < |ids| => assert ids[i] in ids; OfTrack(TrackLineOf(ids[i], db.tracks[ids[i]])))
  }

  /** Every visible release, then every visible track, each once, by id. */
  function Dump(first: Db, second: Db): seq<Line> {
    AllListed(first);
    AllListed(second);
    [MetaLine(FORMAT)] + ReleaseLines(first, AllReleases(first)) + TrackLines(second, AllTracks(second))
  }

  lemma AllListed(db: Db)
    ensures Ascending(AllReleases(db)) && Ascending(AllTracks(db))
    ensures forall id :: id in AllReleases(db) ==> VisibleRelease(db, id)
    ensures forall id :: id in AllTracks(db) ==> VisibleTrack(db, id)
    ensures WellKept(db) ==> forall id :: VisibleRelease(db, id) ==> id in AllReleases(db)
    ensures WellKept(db) ==> forall id :: VisibleTrack(db, id) ==> id in AllTracks(db)
  {
    IdsWhereLists(id => VisibleRelease(db, id), Upto(db.nextRelease));
    IdsWhereLists(id => VisibleTrack(db, id), Upto(db.nextTrack));
    hide IdsWhere, Ascending;
  }

  lemma DumpShowsReleaseIff(first: Db, second: Db, id: int)
    ensures (exists i :: 0 <= i < |Dump(first, second)| && IsOfRelease(Dump(first, second)[i], id)) <==>
            id in AllReleases(first)
  {
    AllListed(first);
    AllListed(second);
    var rids, lines := AllReleases(first), Dump(first, second);
    hide AllReleases, AllTracks, Ascending;
    if id in rids {
      var i :| 0 <= i < |rids| && rids[i] == id;
      assert IsOfRelease(lines[1 + i], id);
    }
    forall i | 0 <= i < |lines| && IsOfRelease(lines[i], id) ensures id in rids {
      assert rids[i - 1] == id;
    }
  }

  lemma DumpShowsTrackIff(first: Db, second: Db, id: int)
    ensures (exists i :: 0 <= i < |Dump(first, second)| && IsOfTrack(Dump(first, second)[i], id)) <==>
            id in AllTracks(second)
  {
    AllListed(first);
    AllListed(second);
    var n, ids, lines := |AllReleases(first)|, AllTracks(second), Dump(first, second);
    hide AllReleases, AllTracks, Ascending;
    if id in ids {
      var i :| 0 <= i < |ids| && ids[i] == id;
      assert IsOfTrack(lines[1 + n + i], id);
    }
    forall i | 0 <= i < |lines| && IsOfTrack(lines[i], id) ensures id in ids {
      assert ids[i - 1 - n] == id;
    }
  }

  /** A dump shows the releases that are up, and the tracks that are up under them. */
  lemma DumpShowsIff(first: Db, second: Db, id: int)
    requires WellKept(first) && WellKept(second)
    ensures |Dump(first, second)| > 0 && Dump(first, second)[0] == MetaLine(1)
    ensures (exists i :: 0 <= i < |Dump(first, second)| && IsOfRelease(Dump(first, second)[i], id)) <==>
            id in first.releases && first.releases[id].withdrawn.None?
    ensures (exists i :: 0 <= i < |Dump(first, second)| && IsOfTrack(Dump(first, second)[i], id)) <==>
            id in second.tracks && second.tracks[id].withdrawn.None?
            && second.releases[second.tracks[id].releaseId].withdrawn.None?
  {
    AllListed(first);
    AllListed(second);
    DumpShowsReleaseIff(first, second, id);
    DumpShowsTrackIff(first, second, id);
    hide AllReleases, AllTracks, Ascending, IsOfRelease, IsOfTrack;
    assert Dump(first, second)[0] == MetaLine(FORMAT);
    hide Dump;
  }

  predicate IsOfRelease(line: Line, id: int) {
    line.ReleaseLine? && line.id == id
  }

  predicate IsOfTrack(line: Line, id: int) {
    line.OfTrack? && line.track.id == id
  }

  function BatchEnd(ids: seq<int>, pos: nat): nat {
    if pos + BATCH <= |ids| then pos + BATCH else |ids|
  }

  /** Resuming after the last id read, the next batch is the next stretch of the list. */
  lemma NextBatch(ids: seq<int>, pos: nat, after: int)
    requires Ascending(ids) && pos <= |ids| && after == if pos == 0 then 0 else ids[pos - 1]
    ensures Page(ids, after, BATCH) == ids[pos..BatchEnd(ids, pos)]
  {
    PageFollows(ids, pos, after, BATCH);
  }

  method WriteReleases(db: Db) returns (lines: seq<Line>, count: nat)
    ensures forall id :: id in AllReleases(db) ==> id in db.releases
    ensures lines == ReleaseLines(db, AllReleases(db)) && count == |lines|
  {
    AllListed(db);
    var ids := AllReleases(db);
    hide AllReleases, Page;
    lines, count := [], 0;
    var afterID := 0;
    while true
      invariant count <= |ids| && afterID == if count == 0 then 0 else ids[count - 1]
      invariant lines == ReleaseLines(db, ids)[..count]
      decreases |ids| - count
    {
      NextBatch(ids, count, afterID);
      var batch := Page(ids, afterID, BATCH);
      if |batch| == 0 {
        break;
      }
      for i := 0 to |batch|
        invariant lines == ReleaseLines(db, ids)[..count + i]
      {
        assert batch[i] == ids[count + i] && ids[count + i] in ids;
        lines := lines + [ReleaseLineOf(batch[i], db.releases[batch[i]])];
      }
      count := count + |batch|;
      afterID := batch[|batch| - 1];
    }
  }

  method WriteTracks(db: Db) returns (lines: seq<Line>, count: nat)
    ensures forall id :: id in AllTracks(db) ==> id in db.tracks
    ensures lines == TrackLines(db, AllTracks(db)) && count == |lines|
  {
    AllListed(db);
    var ids := AllTracks(db);
    hide AllTracks, Page;
    lines, count := [], 0;
    var afterID := 0;
    while true
      invariant count <= |ids| && afterID == if count == 0 then 0 else ids[count - 1]
      invariant lines == TrackLines(db, ids)[..count]
      decreases |ids| - count
    {
      NextBatch(ids, count, afterID);
      var batch := Page(ids, afterID, BATCH);
      if |batch| == 0 {
        break;
      }
      for i := 0 to |batch|
        invariant lines == TrackLines(db, ids)[..count + i]
      {
        assert batch[i] == ids[count + i] && ids[count + i] in ids;
        lines := lines + [OfTrack(TrackLineOf(batch[i], db.tracks[batch[i]]))];
      }
      count := count + |batch|;
      afterID := batch[|batch| - 1];
    }
  }

  method WriteDump(first: Db, second: Db) returns (lines: seq<Line>, releases: nat, tracks: nat)
    ensures lines == Dump(first, second)
    ensures releases == |AllReleases(first)| && tracks == |AllTracks(second)|
  {
    hide AllReleases, AllTracks, VisibleTrack;
    var releaseLines, trackLines;
    releaseLines, releases := WriteReleases(first);
    trackLines, tracks := WriteTracks(second);
    lines := [MetaLine(FORMAT)] + releaseLines + trackLines;
  }
}
