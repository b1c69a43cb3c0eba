/** Which release a scene's subtitles come from: stash-box identity hits put before fingerprint
    matches (search in plugin/app.go), and the unattended choice of downloadSceneChunk in
    plugin/download.go.
 */
module Choosing {
  import opened Wrappers
  import opened Wire
  import opened PHashing
  import opened Lookups
  import opened LookupClient
  import opened Sorting
  import opened Matching

  function Identity(r: Release, durationMs: int): Candidate {
    Direct(r, Exact, -1, durationMs - r.durationMs, false)
  }

  /** One candidate for every release a stash-box id resolved to. */
  function Identified(hits: seq<Release>, durationMs: int): seq<Candidate> {
    var rs := DistinctById(hits);
    seq(|rs|, i requires 0 <= i < |rs| => Identity(rs[i], durationMs))
  }

  method StashIdentityCandidates(hits: seq<Release>, durationMs: int) returns (out: seq<Candidate>)
    ensures out == Identified(hits, durationMs)
  {
    hide DistinctById, Ids;
    var seen: set<int> := {};
    ghost var kept: seq<Release> := [];
    out := [];
    NothingKept();
    for i := 0 to |hits|
      invariant kept == DistinctById(hits[..i]) && seen == Ids(kept)
      invariant |out| == |kept| && forall j :: 0 <= j < |out| ==> out[j] == Identity(kept[j], durationMs)
    {
      DistinctOneMore(hits[..i], hits[i]);
      assert hits[..i + 1] == hits[..i] + [hits[i]];
      if hits[i].id in seen {
        continue;
      }
      seen := seen + {hits[i].id};
      out := out + [Identity(hits[i], durationMs)];
      kept := kept + [hits[i]];
    }
    assert hits[..|hits|] == hits;
  }

  lemma NothingKept()
    ensures DistinctById([]) == [] && Ids([]) == {}
  {
  }

  function ReleaseIds(cs: seq<Candidate>): set<int> {
    set c | c in cs :: c.release.id
  }

  function Without(cs: seq<Candidate>, ids: set<int>): seq<Candidate> {
    if cs == [] then []
    else Without(cs[..|cs| - 1], ids) + if cs[|cs| - 1].release.id in ids then [] else [cs[|cs| - 1]]
  }

  /** Identity hits first, then the fingerprint candidates of other releases. */
  function Merged(first: seq<Candidate>, rest: seq<Candidate>): seq<Candidate> {
    if first == [] then rest else first + Without(rest, ReleaseIds(first))
  }

  method Merge(first: seq<Candidate>, rest: seq<Candidate>) returns (candidates: seq<Candidate>)
    ensures candidates == Merged(first, rest)
  {
    if |first| == 0 {
      return rest;
    }
    var seen: set<int> := {};
    for i := 0 to |first|
      invariant seen == ReleaseIds(first[..i])
    {
      assert first[..i + 1] == first[..i] + [first[i]];
      seen := seen + {first[i].release.id};
    }
    assert first[..|first|] == first;
    candidates := first;
    for i := 0 to |rest|
      invariant candidates == first + Without(rest[..i], seen)
    {
      assert rest[..i + 1][..i] == rest[..i];
      if rest[i].release.id !in seen {
        candidates := candidates + [rest[i]];
      }
    }
    assert rest[..|rest|] == rest;
  }

  lemma {:induction false} WithoutMembers(cs: seq<Candidate>, ids: set<int>, c: Candidate)
    ensures c in Without(cs, ids) <==> c in cs && c.release.id !in ids
  {
    if cs != [] {
      WithoutMembers(cs[..|cs| - 1], ids, c);
      assert cs == cs[..|cs| - 1] + [cs[|cs| - 1]];
    }
  }

  /** A release named by a stash-box id keeps that evidence alone: its fingerprint match goes, and
      with it, since they carry its id, every sibling it would have brought. */
  lemma IdentifiedReleaseStandsAlone(
    hits: seq<Release>, rs: seq<Release>, s: Scene, durationMs: int, r: Release, c: Candidate)
    requires r in hits && c.release.id == r.id
    ensures c in Merged(Identified(hits, durationMs), Ranked(rs, s, durationMs, false))
            <==> c in Identified(hits, durationMs)
    ensures forall sb :: sb in OfSiblings(r, durationMs - r.durationMs) ==>
              sb !in Merged(Identified(hits, durationMs), Ranked(rs, s, durationMs, false))
  {
    hide DistinctById, Ranked;
    var first, rest := Identified(hits, durationMs), Ranked(rs, s, durationMs, false);
    IdentifiedIds(hits, durationMs);
    assert r.id in Ids(hits);
    WithoutMembers(rest, ReleaseIds(first), c);
    forall sb | sb in OfSiblings(r, durationMs - r.durationMs) ensures sb !in Merged(first, rest) {
      WithoutMembers(rest, ReleaseIds(first), sb);
    }
  }

  lemma IdentifiedIds(hits: seq<Release>, durationMs: int)
    ensures ReleaseIds(Identified(hits, durationMs)) == Ids(hits)
    ensures forall c :: c in Identified(hits, durationMs) ==> c.confidence.Exact?
  {
    var rs, first := DistinctById(hits), Identified(hits, durationMs);
    DistinctByIdKeepsOne(hits);
    hide DistinctById;
    forall id | id in Ids(rs) ensures id in ReleaseIds(first) {
      var i :| 0 <= i < |rs| && rs[i].id == id;
      assert first[i] in first;
    }
    assert forall c :: c in first ==> c.release in rs;
  }

  lemma {:induction false} WithoutKeepsOrder(cs: seq<Candidate>, ids: set<int>)
    requires BestFirst(cs)
    ensures BestFirst(Without(cs, ids))
  {
    hide NoWorse;
    if cs != [] {
      var init, last := cs[..|cs| - 1], cs[|cs| - 1];
      WithoutKeepsOrder(init, ids);
      forall c | c in Without(init, ids) ensures NoWorse(c, last) {
        WithoutMembers(init, ids, c);
        var j :| 0 <= j < |init| && init[j] == c;
        assert cs[j] == c;
      }
    }
  }

  /** What a search shows is best first, identity hits ahead of everything. */
  lemma SearchIsBestFirst(hits: seq<Release>, rs: seq<Release>, s: Scene, durationMs: int, fromExactMode: bool)
    ensures var first, rest := Identified(hits, durationMs), Ranked(rs, s, durationMs, fromExactMode);
            BestFirst(Merged(first, rest)) && first <= Merged(first, rest)
            && (forall c :: c in first ==> c.confidence.Exact?)
  {
    var first, rest := Identified(hits, durationMs), Ranked(rs, s, durationMs, fromExactMode);
    IdentifiedIds(hits, durationMs);
    RankedIsBestFirst(rs, s, durationMs, fromExactMode);
    WithoutKeepsOrder(rest, ReleaseIds(first));
    hide Identified, Ranked, Without, ReleaseIds;
    assert forall i :: 0 <= i < |first| ==> first[i] in first;
  }

  // -- The unattended choice -------------------------------------------------

  predicate Timely(c: Candidate) {
    Abs(c.deltaMs) <= DURATION_GATE_MS
  }

  function Gated(cs: seq<Candidate>): seq<Candidate> {
    if cs == [] then []
    else Gated(cs[..|cs| - 1]) + if Timely(cs[|cs| - 1]) then [cs[|cs| - 1]] else []
  }

  /** The candidates an unattended download ranks; it takes the first. */
  method DownloadCandidates(hits: seq<Release>, rs: seq<Release>, s: Scene, durationMs: int)
    returns (candidates: seq<Candidate>)
    ensures candidates == Merged(Gated(Identified(hits, durationMs)), Ranked(rs, s, durationMs, false))
  {
    var hashCandidates := RankCandidates(rs, s, durationMs, false);
    hide Ranked, Identified;
    var identified := StashIdentityCandidates(hits, durationMs);
    var gated: seq<Candidate> := [];
    for i := 0 to |identified|
      invariant gated == Gated(identified[..i])
    {
      assert identified[..i + 1][..i] == identified[..i];
      var c := identified[i];
      var delta := if c.deltaMs < 0 then -c.deltaMs else c.deltaMs;
      if delta > DURATION_GATE_MS {
        continue;
      }
      gated := gated + [c];
    }
    assert identified[..|identified|] == identified;
    candidates := Merge(gated, hashCandidates);
  }

  lemma {:induction false} GatedMembers(cs: seq<Candidate>, c: Candidate)
    ensures c in Gated(cs) <==> c in cs && Timely(c)
  {
    if cs != [] {
      GatedMembers(cs[..|cs| - 1], c);
      assert cs == cs[..|cs| - 1] + [cs[|cs| - 1]];
    }
  }

  lemma {:induction false} MatchesAreDirect(rs: seq<Release>, s: Scene, durationMs: int, c: Candidate)
    requires c in Matches(rs, s, durationMs, false)
    ensures c.siblingOf == 0 && (c.confidence.Exact? || c.confidence.High?)
  {
    hide Hamming, Parse;
    if c !in Matches(rs[..|rs| - 1], s, durationMs, false) {
      assert Judge(rs[|rs| - 1], s, durationMs, false) == Some(c);
    } else {
      MatchesAreDirect(rs[..|rs| - 1], s, durationMs, c);
    }
  }

  lemma {:induction false} MatchesComeWithTheirSiblings(rs: seq<Release>, s: Scene, durationMs: int, c: Candidate)
    ensures c in WithSiblings(rs, s, durationMs, false) && !c.confidence.Offer? <==>
            c in Matches(rs, s, durationMs, false)
    ensures Matches(rs, s, durationMs, false) == [] ==> WithSiblings(rs, s, durationMs, false) == []
  {
    var found := WithSiblings(rs, s, durationMs, false);
    SiblingsAside(rs, s, durationMs);
    CountOfFingerprinted(found, c);
    assert c in found <==> c in multiset(found);
    assert c in Matches(rs, s, durationMs, false) <==> c in multiset(Matches(rs, s, durationMs, false));
    if c in Matches(rs, s, durationMs, false) {
      MatchesAreDirect(rs, s, durationMs, c);
    }
    if rs != [] {
      MatchesComeWithTheirSiblings(rs[..|rs| - 1], s, durationMs, c);
    }
  }

  lemma RankedReorders(rs: seq<Release>, s: Scene, durationMs: int)
    ensures var out, all := Ranked(rs, s, durationMs, false), WithSiblings(rs, s, durationMs, false);
            BestFirst(out) && |out| == |all| && forall c :: c in out <==> c in all
  {
    var out, all := Ranked(rs, s, durationMs, false), WithSiblings(rs, s, durationMs, false);
    RankedIsBestFirst(rs, s, durationMs, false);
    hide WithSiblings, Ranked, BestFirst;
    assert |multiset(out)| == |multiset(all)|;
    forall c ensures c in out <==> c in all {
      assert c in out <==> c in multiset(out);
      assert c in all <==> c in multiset(all);
    }
  }

  /** The first candidate on fingerprints is a match, and has the scene's bytes if any match has. */
  lemma RankedFirst(rs: seq<Release>, s: Scene, durationMs: int)
    ensures var out, found := Ranked(rs, s, durationMs, false), Matches(rs, s, durationMs, false);
            && (out == [] <==> found == [])
            && (out != [] ==> out[0] in found)
            && (out != [] ==> forall c :: c in found && c.confidence.Exact? ==> out[0].confidence.Exact?)
  {
    var out, all := Ranked(rs, s, durationMs, false), WithSiblings(rs, s, durationMs, false);
    var found := Matches(rs, s, durationMs, false);
    RankedReorders(rs, s, durationMs);
    hide Ranked, WithSiblings, Matches, BestFirst;
    forall c | c in found
      ensures c in out && (c.confidence.Exact? ==> out[0].confidence.Exact?) && !out[0].confidence.Offer?
    {
      MatchesComeWithTheirSiblings(rs, s, durationMs, c);
      MatchesAreDirect(rs, s, durationMs, c);
      FirstIsBest(out, c);
    }
    if found == [] {
      var any: Candidate :| true;
      MatchesComeWithTheirSiblings(rs, s, durationMs, any);
    } else {
      assert found[0] in found;
      MatchesComeWithTheirSiblings(rs, s, durationMs, out[0]);
    }
  }

  lemma FirstIsBest(out: seq<Candidate>, c: Candidate)
    requires BestFirst(out) && c in out
    ensures c.confidence.Exact? ==> out[0].confidence.Exact?
    ensures c.confidence.High? ==> out[0].confidence.Exact? || out[0].confidence.High?
  {
    var i :| 0 <= i < |out| && out[i] == c;
  }

  predicate WithinASecond(r: Release, durationMs: int) {
    -1000 <= durationMs - r.durationMs <= 1000
  }

  /** An identity hit shows the release a stash-box id resolved to, and how its length differs. */
  lemma IdentityHits(hits: seq<Release>, durationMs: int)
    ensures var first, rs := Identified(hits, durationMs), DistinctById(hits);
            && |first| == |rs|
            && forall i :: 0 <= i < |rs| ==>
                 && first[i].release == rs[i] && first[i].deltaMs == durationMs - rs[i].durationMs
                 && first[i].confidence.Exact? && first[i].siblingOf == 0 && !first[i].crossRelease
  {
    hide DistinctById;
  }

  lemma TimelyIff(hits: seq<Release>, durationMs: int, c: Candidate)
    ensures c in Gated(Identified(hits, durationMs)) <==>
            c in Identified(hits, durationMs) && WithinASecond(c.release, durationMs)
    ensures c in Identified(hits, durationMs) ==> c.release in DistinctById(hits) && c.siblingOf == 0
  {
    var first := Identified(hits, durationMs);
    IdentityHits(hits, durationMs);
    GatedMembers(first, c);
    hide Identified, DistinctById, Gated;
    if c in first {
      var i :| 0 <= i < |first| && first[i] == c;
    }
  }

  /** Those that count for an unattended download are those within a second. */
  lemma TimelyHits(hits: seq<Release>, durationMs: int)
    ensures forall c :: c in Gated(Identified(hits, durationMs)) ==>
              c.release in hits && WithinASecond(c.release, durationMs) && c.siblingOf == 0
    ensures (exists r :: r in DistinctById(hits) && WithinASecond(r, durationMs))
            <==> Gated(Identified(hits, durationMs)) != []
  {
    var first, rs := Identified(hits, durationMs), DistinctById(hits);
    DistinctByIdKeepsOne(hits);
    IdentityHits(hits, durationMs);
    hide DistinctById, Identified, Gated, WithinASecond;
    forall c ensures c in Gated(first) <==> c in first && WithinASecond(c.release, durationMs)
      ensures c in first ==> c.release in rs && c.siblingOf == 0
    {
      TimelyIff(hits, durationMs, c);
    }
    if r :| r in rs && WithinASecond(r, durationMs) {
      var i :| 0 <= i < |rs| && rs[i] == r;
      assert first[i] in first;
    }
    if Gated(first) != [] {
      assert Gated(first)[0] in Gated(first);
    }
  }

  /** A visible release with the scene's bytes is in the scan, as one. */
  lemma {:induction false} SameBytesAreScanned(table: seq<StoredRelease>, s: Scene, durationMs: int, row: StoredRelease)
    requires row in table && !row.withdrawn && row.oshash == s.oshash
    ensures exists c :: c in FullScan(table, s, durationMs) && c.confidence.Exact?
  {
    hide Hamming;
    var init, last := table[..|table| - 1], table[|table| - 1];
    assert table == init + [last];
    if row in init {
      SameBytesAreScanned(init, s, durationMs, row);
      var c :| c in FullScan(init, s, durationMs) && c.confidence.Exact?;
      assert c in FullScan(table, s, durationMs);
    } else {
      assert Compare(last, s, durationMs).value in FullScan(table, s, durationMs);
    }
  }

  lemma {:induction false} ExactIsSameBytes(table: seq<StoredRelease>, s: Scene, durationMs: int, c: Candidate)
    requires c in FullScan(table, s, durationMs) && c.confidence.Exact?
    ensures c.release.oshash == s.oshash
  {
    hide Hamming;
    if c in FullScan(table[..|table| - 1], s, durationMs) {
      ExactIsSameBytes(table[..|table| - 1], s, durationMs, c);
    }
  }

  /** Over every catalogue: the download finds something exactly when an identity hit is within
      a second or the whole catalogue holds a match. It takes such an identity hit; else the very file if
      the catalogue shows it; else a near match of the catalogue; and never another cut's subtitle. */
  lemma DownloadChoiceIsSafe(table: seq<StoredRelease>, hits: seq<Release>, s: Scene, durationMs: int)
    requires UniqueIds(table)
    ensures var scan := FullScan(table, s, durationMs);
            var cs := Merged(Gated(Identified(hits, durationMs)),
                             Ranked(SceneReleases(table, s), s, durationMs, false));
            var identified := exists r :: r in DistinctById(hits) && WithinASecond(r, durationMs);
            && (cs == [] <==> !identified && scan == [])
            && (identified ==> cs[0].release in hits && WithinASecond(cs[0].release, durationMs))
            && (!identified && cs != [] ==> cs[0] in scan)
            && (!identified && (exists row :: row in table && !row.withdrawn && row.oshash == s.oshash)
                ==> cs != [] && cs[0].release.oshash == s.oshash)
            && (cs != [] ==> cs[0].siblingOf == 0)
  {
    var rs := SceneReleases(table, s);
    var timely, scan, found := Gated(Identified(hits, durationMs)), FullScan(table, s, durationMs),
        Matches(rs, s, durationMs, false);
    RankedFirst(rs, s, durationMs);
    SceneMatchesAreTheScan(table, s, durationMs);
    TimelyHits(hits, durationMs);
    hide SceneReleases, FullScan, Ranked, Matches, Gated, Identified, DistinctById, WithinASecond, UniqueIds;
    forall c ensures c in found <==> c in scan {
      assert c in found <==> c in multiset(found);
      assert c in scan <==> c in multiset(scan);
    }
    assert |found| == |multiset(found)| == |multiset(scan)| == |scan|;
    if timely != [] {
      assert timely[0] in timely;
    } else if found != [] {
      var first := Ranked(rs, s, durationMs, false)[0];
      MatchesAreDirect(rs, s, durationMs, first);
      if row :| row in table && !row.withdrawn && row.oshash == s.oshash {
        SameBytesAreScanned(table, s, durationMs, row);
        ExactIsSameBytes(table, s, durationMs, first);
      }
    } else if row :| row in table && !row.withdrawn && row.oshash == s.oshash {
      SameBytesAreScanned(table, s, durationMs, row);
    }
  }

  /** What being in the scan means: the same bytes, or a near fingerprint and a near length. */
  lemma {:induction false} ScanMeansSameVideo(table: seq<StoredRelease>, s: Scene, durationMs: int, c: Candidate)
    requires c in FullScan(table, s, durationMs)
    ensures exists row :: row in table && !row.withdrawn && OnTheWire(row) == c.release &&
                          (row.oshash == s.oshash
                           || (Near(row, s, 4) && -1000 <= durationMs - row.durationMs <= 1000))
  {
    hide Hamming;
    var init, last := table[..|table| - 1], table[|table| - 1];
    if c in FullScan(init, s, durationMs) {
      ScanMeansSameVideo(init, s, durationMs, c);
    }
    assert last in table;
  }
}
