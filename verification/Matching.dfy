/** Turning the releases of a scene's buckets into ranked candidates (plugin/match.go), and why that
    equals a scan of the whole catalogue.
 */
module Matching {
  import opened Wrappers
  import opened Wire
  import opened PHashing
  import opened Lookups
  import opened LookupClient
  import opened Sorting

  datatype Confidence = Exact | High | Offer | Name

  datatype Candidate = Candidate(
    release: Release, confidence: Confidence, hamming: int, deltaMs: int, crossRelease: bool,
    siblingOf: int, siblingOffsetMs: int, siblingSyncKnown: bool, siblingOffsetSource: string)

  const DURATION_GATE_MS := 1000

  function Abs(x: int): nat {
    if x < 0 then -x else x
  }

  function ConfidenceRank(c: Candidate): int {
    match c.confidence
    case Exact => 0
    case High => 1
    case Offer => 2
    case Name => 3
  }

  /** A candidate authored for the release itself. */
  function Direct(r: Release, confidence: Confidence, hamming: int, deltaMs: int, crossRelease: bool): Candidate {
    Candidate(r, confidence, hamming, deltaMs, crossRelease, 0, 0, false, "")
  }

  function OfSibling(r: Release, deltaMs: int, sb: Sibling): Candidate {
    Candidate(
      r.(tracks := [TrackSummary(sb.trackId, sb.lang, "", sb.generated, sb.downloads)], siblings := []),
      Offer, -1, deltaMs, true, sb.releaseId,
      if sb.offsetMs.Some? then sb.offsetMs.value else 0, sb.offsetMs.Some?,
      if sb.offsetMs.Some? && sb.offsetSource.Some? then sb.offsetSource.value else "")
  }

  function OfSiblings(r: Release, deltaMs: int): seq<Candidate> {
    seq(|r.siblings|, i requires 0 <= i < |r.siblings| => OfSibling(r, deltaMs, r.siblings[i]))
  }

  method SiblingCandidates(r: Release, deltaMs: int) returns (out: seq<Candidate>)
    ensures out == OfSiblings(r, deltaMs)
  {
    out := [];
    for i := 0 to |r.siblings|
      invariant out == OfSiblings(r, deltaMs)[..i]
    {
      var sb := r.siblings[i];
      var rel := r.(tracks := [TrackSummary(sb.trackId, sb.lang, "", sb.generated, sb.downloads)], siblings := []);
      var c := Candidate(rel, Offer, -1, deltaMs, true, sb.releaseId, 0, false, "");
      if sb.offsetMs.Some? {
        c := c.(siblingSyncKnown := true, siblingOffsetMs := sb.offsetMs.value);
        if sb.offsetSource.Some? {
          c := c.(siblingOffsetSource := sb.offsetSource.value);
        }
      }
      out := out + [c];
    }
  }

  /** A sibling is offered as a release of its one track, under the id of the release that matched, and
      says where its offset comes from only if it has one. */
  lemma SiblingIsOffered(r: Release, deltaMs: int, i: nat)
    requires i < |r.siblings|
    ensures |OfSiblings(r, deltaMs)| == |r.siblings|
    ensures var c, sb := OfSiblings(r, deltaMs)[i], r.siblings[i];
            && c.confidence.Offer? && c.crossRelease && c.hamming == -1 && c.deltaMs == deltaMs
            && c.release.id == r.id && c.release.oshash == r.oshash && c.release.durationMs == r.durationMs
            && |c.release.tracks| == 1 && c.release.siblings == [] && c.siblingOf == sb.releaseId
            && (var t := c.release.tracks[0];
                && t.id == sb.trackId && t.lang == sb.lang && t.kind == "" && t.generated == sb.generated
                && t.downloads == sb.downloads)
            && (c.siblingSyncKnown <==> sb.offsetMs.Some?)
            && (c.siblingSyncKnown ==> c.siblingOffsetMs == sb.offsetMs.value)
            && (c.siblingOffsetSource != "" ==>
                  c.siblingSyncKnown && sb.offsetSource == Some(c.siblingOffsetSource))
            && (sb.offsetMs.Some? && sb.offsetSource.Some? ==> c.siblingOffsetSource == sb.offsetSource.value)
  {
  }

  /** What a release is to the scene, going by what travelled on the wire. */
  function Judge(r: Release, s: Scene, durationMs: int, fromExactMode: bool): Option<Candidate> {
    var deltaMs := durationMs - r.durationMs;
    if r.oshash == s.oshash then Some(Direct(r, Exact, -1, deltaMs, false))
    else if s.phash.None? || r.phash.None? || Parse(r.phash.value).None? then None
    else
      var d := Hamming(s.phash.value, Parse(r.phash.value).value);
      if d <= 4 && Abs(deltaMs) <= DURATION_GATE_MS then Some(Direct(r, High, d, deltaMs, true))
      else if fromExactMode && d <= 8 && Abs(deltaMs) <= 5 * DURATION_GATE_MS then
          Some(Direct(r, Offer, d, deltaMs, true))
      else None
  }

  /** The matches among `rs`, in order. */
  function Matches(rs: seq<Release>, s: Scene, durationMs: int, fromExactMode: bool): seq<Candidate> {
    if rs == [] then []
    else
      Matches(rs[..|rs| - 1], s, durationMs, fromExactMode) +
      match Judge(rs[|rs| - 1], s, durationMs, fromExactMode)
      case Some(c) => [c]
      case None => []
  }

  /** The same with each exact match followed by its siblings. */
  function WithSiblings(rs: seq<Release>, s: Scene, durationMs: int, fromExactMode: bool): seq<Candidate> {
    if rs == [] then []
    else
      var last := rs[|rs| - 1];
      WithSiblings(rs[..|rs| - 1], s, durationMs, fromExactMode) +
      match Judge(last, s, durationMs, fromExactMode)
      case Some(c) => [c] + if c.confidence.Exact? then OfSiblings(last, c.deltaMs) else []
      case None => []
  }

  function Ranked(rs: seq<Release>, s: Scene, durationMs: int, fromExactMode: bool): seq<Candidate> {
    SortBy(WithSiblings(rs, s, durationMs, fromExactMode), ConfidenceRank)
  }

  /** The same bytes before near ones, those before offers, and guesses by name last. */
  predicate NoWorse(a: Candidate, b: Candidate) {
    && (b.confidence.Exact? ==> a.confidence.Exact?)
    && (b.confidence.High? ==> a.confidence.Exact? || a.confidence.High?)
    && (a.confidence.Name? ==> b.confidence.Name?)
  }

  predicate BestFirst(cs: seq<Candidate>) {
    forall i, j :: 0 <= i < j < |cs| ==> NoWorse(cs[i], cs[j])
  }

  function OfConfidence(k: Confidence): Candidate -> bool {
    (c: Candidate) => c.confidence == k
  }

  lemma SortedIsBestFirst(cs: seq<Candidate>)
    requires Sorted(cs, ConfidenceRank)
    ensures BestFirst(cs)
  {
  }

  /** Ranking reorders, best first, and leaves those of one confidence as the node listed them. */
  lemma RankedIsBestFirst(rs: seq<Release>, s: Scene, durationMs: int, fromExactMode: bool)
    ensures var out, found := Ranked(rs, s, durationMs, fromExactMode), WithSiblings(rs, s, durationMs, fromExactMode);
            && BestFirst(out) && multiset(out) == multiset(found)
            && forall k :: Where(out, OfConfidence(k)) == Where(found, OfConfidence(k))
  {
    var found := WithSiblings(rs, s, durationMs, fromExactMode);
    SortByIsStableSort(found, ConfidenceRank);
    hide WithSiblings, SortBy;
    SortedIsBestFirst(Ranked(rs, s, durationMs, fromExactMode));
    forall k ensures Where(SortBy(found, ConfidenceRank), OfConfidence(k)) == Where(found, OfConfidence(k)) {
      var rank := match k case Exact => 0 case High => 1 case Offer => 2 case Name => 3;
      TiesKeepTheirOrder(found, ConfidenceRank, rank, OfConfidence(k));
    }
  }

  method RankCandidates(rs: seq<Release>, s: Scene, durationMs: int, fromExactMode: bool)
    returns (out: seq<Candidate>)
    ensures out == Ranked(rs, s, durationMs, fromExactMode) && BestFirst(out)
  {
    hide Hamming, Parse, SortBy, OfSiblings, BestFirst;
    var found: seq<Candidate> := [];
    for i := 0 to |rs|
      invariant found == WithSiblings(rs[..i], s, durationMs, fromExactMode)
    {
      assert rs[..i + 1][..i] == rs[..i];
      var r := rs[i];
      var deltaMs := durationMs - r.durationMs;
      if r.oshash == s.oshash {
        var siblings := SiblingCandidates(r, deltaMs);
        found := found + ([Direct(r, Exact, -1, deltaMs, false)] + siblings);
        continue;
      }
      if s.phash.None? || r.phash.None? {
        continue;
      }
      var rp := Parse(r.phash.value);
      if rp.None? {
        continue;
      }
      var d := Hamming(s.phash.value, rp.value);
      var absDelta := if deltaMs < 0 then -deltaMs else deltaMs;
      if d <= 4 && absDelta <= DURATION_GATE_MS {
        found := found + [Direct(r, High, d, deltaMs, true)];
      } else if fromExactMode && d <= 8 && absDelta <= 5 * DURATION_GATE_MS {
        found := found + [Direct(r, Offer, d, deltaMs, true)];
      }
    }
    assert rs[..|rs|] == rs;
    var sorted := new Candidate[|found|](i requires 0 <= i < |found| => found[i]);
    assert sorted[..] == found;
    SortInPlace(sorted, ConfidenceRank);
    RankedIsBestFirst(rs, s, durationMs, fromExactMode);
    return sorted[..];
  }

  // -- Bucketed lookup is exact ----------------------------------------------

  /** What a stored release is to the scene, with both fingerprints in hand. */
  function Compare(row: StoredRelease, s: Scene, durationMs: int): Option<Candidate> {
    var deltaMs := durationMs - row.durationMs;
    if row.oshash == s.oshash then Some(Direct(OnTheWire(row), Exact, -1, deltaMs, false))
    else if s.phash.Some? && row.phash.Some? && Hamming(s.phash.value, row.phash.value) <= 4
            && -DURATION_GATE_MS <= deltaMs <= DURATION_GATE_MS
    then Some(Direct(OnTheWire(row), High, Hamming(s.phash.value, row.phash.value), deltaMs, true))
    else None
  }

  /** Every visible release of the catalogue compared with the scene. */
  function FullScan(table: seq<StoredRelease>, s: Scene, durationMs: int): seq<Candidate> {
    if table == [] then []
    else
      var last := table[|table| - 1];
      FullScan(table[..|table| - 1], s, durationMs) +
      if !last.withdrawn && Compare(last, s, durationMs).Some? then [Compare(last, s, durationMs).value] else []
  }

  ghost predicate UniqueIds(table: seq<StoredRelease>) {
    forall i, j :: 0 <= i < j < |table| ==> table[i].id != table[j].id
  }

  function Visible(table: seq<StoredRelease>): seq<Release> {
    if table == [] then []
    else
      var last := table[|table| - 1];
      Visible(table[..|table| - 1]) + if last.withdrawn then [] else [OnTheWire(last)]
  }

  lemma WireKeepsTheHash(row: StoredRelease, s: Scene, durationMs: int)
    ensures Judge(OnTheWire(row), s, durationMs, false) == Compare(row, s, durationMs)
  {
    hide Hamming, Parse, PHashing.ToString;
    if row.phash.Some? {
      TextRoundTrip(row.phash.value);
    }
  }

  /** What a stored release is to the scene, field by field: the same file by its oshash; else, with a
      phash on both sides, the same video within four bits and a second; in exact mode also an offer
      within eight bits and five seconds. */
  lemma RowIsJudged(row: StoredRelease, s: Scene, durationMs: int, fromExactMode: bool)
    ensures var verdict := Judge(OnTheWire(row), s, durationMs, fromExactMode);
            var sameFile, delta := row.oshash == s.oshash, durationMs - row.durationMs;
            && (verdict.Some? && verdict.value.confidence.Exact? <==> sameFile)
            && (verdict.Some? && verdict.value.confidence.High? <==>
                !sameFile && Near(row, s, 4) && -1000 <= delta <= 1000)
            && (verdict.Some? && verdict.value.confidence.Offer? <==>
                fromExactMode && !sameFile && Near(row, s, 8) && -5000 <= delta <= 5000
                && !(Near(row, s, 4) && -1000 <= delta <= 1000))
            && (verdict.Some? ==> Shown(row, s, delta, verdict.value))
  {
    hide Hamming, Parse, PHashing.ToString;
    if row.phash.Some? {
      TextRoundTrip(row.phash.value);
    }
  }

  predicate Near(row: StoredRelease, s: Scene, bits: nat) {
    s.phash.Some? && row.phash.Some? && Hamming(s.phash.value, row.phash.value) <= bits
  }

  /** A candidate shows the release as stored, and how far off it is. */
  predicate Shown(row: StoredRelease, s: Scene, delta: int, c: Candidate) {
    && c.release.id == row.id && c.release.oshash == row.oshash && c.release.durationMs == row.durationMs
    && c.release.tracks == row.tracks && c.release.siblings == row.siblings
    && c.deltaMs == delta && c.siblingOf == 0 && !c.confidence.Name? && c.crossRelease == !c.confidence.Exact?
    && (c.confidence.Exact? ==> c.hamming == -1)
    && (!c.confidence.Exact? ==> Near(row, s, 8) && c.hamming == Hamming(s.phash.value, row.phash.value))
  }

  lemma {:induction false} FullScanJudgesVisible(table: seq<StoredRelease>, s: Scene, durationMs: int)
    ensures FullScan(table, s, durationMs) == Matches(Visible(table), s, durationMs, false)
  {
    if table != [] {
      var init, last := table[..|table| - 1], table[|table| - 1];
      FullScanJudgesVisible(init, s, durationMs);
      WireKeepsTheHash(last, s, durationMs);
      if !last.withdrawn {
        assert (Visible(init) + [OnTheWire(last)])[..|Visible(init)|] == Visible(init);
      } else {
        assert Visible(table) == Visible(init);
      }
    }
  }

  // Membership: what reaches the scene, and what a match needs to reach it.

  lemma {:induction false} VisibleShows(table: seq<StoredRelease>, r: Release)
    ensures r in Visible(table) <==> exists row :: row in table && Shows(row, r)
  {
    hide OnTheWire;
    if table != [] {
      var init, last := table[..|table| - 1], table[|table| - 1];
      VisibleShows(init, r);
      assert table == init + [last];
      assert last in table;
    }
  }

  lemma {:induction false} UnionMembers(table: seq<StoredRelease>, keys: seq<Key>, r: Release)
    ensures r in Union(table, keys) <==> exists k :: k in keys && r in Rows(table, k)
  {
    hide Rows;
    if keys != [] {
      var init, last := keys[..|keys| - 1], keys[|keys| - 1];
      UnionMembers(table, init, r);
      assert keys == init + [last];
      assert last in keys;
    }
  }

  /** Nothing a match needs is lost between the buckets: an equal oshash shares its prefix, and
      a phash within distance four shares a block. */
  lemma MatchesReachTheScene(table: seq<StoredRelease>, s: Scene, durationMs: int, r: Release)
    requires r in Visible(table) && Judge(r, s, durationMs, false).Some?
    ensures r in Union(table, KeysOf(s))
  {
    VisibleShows(table, r);
    var row :| row in table && Shows(row, r);
    WireKeepsTheHash(row, s, durationMs);
    var k: Key;
    if r.oshash == s.oshash {
      k := OshashKey(s.oshash[..5]);
      assert KeysOf(s)[0] == k;
    } else {
      Pigeonhole(s.phash.value, row.phash.value);
      var b: nat :| b < BLOCKS && Block(s.phash.value, b) == Block(row.phash.value, b);
      k := BlockKey(b, Block(s.phash.value, b));
      assert KeysOf(s)[b + 1] == k;
    }
    assert InBucket(k, row);
    RowsShow(table, k, r);
    UnionMembers(table, KeysOf(s), r);
  }

  lemma OnlyVisibleReachTheScene(table: seq<StoredRelease>, s: Scene, r: Release)
    requires r in Union(table, KeysOf(s))
    ensures r in Visible(table)
  {
    UnionMembers(table, KeysOf(s), r);
    var k :| k in KeysOf(s) && r in Rows(table, k);
    RowsShow(table, k, r);
    VisibleShows(table, r);
  }

  // Each once: ids are unique in the catalogue and in what a scene gets.

  ghost predicate DistinctIds(rs: seq<Release>) {
    forall i, j :: 0 <= i < j < |rs| ==> rs[i].id != rs[j].id
  }

  lemma {:induction false} VisibleIdsAreDistinct(table: seq<StoredRelease>)
    requires UniqueIds(table)
    ensures DistinctIds(Visible(table))
  {
    if table != [] {
      var init, last := table[..|table| - 1], table[|table| - 1];
      VisibleIdsAreDistinct(init);
      forall r | r in Visible(init) ensures r.id != last.id {
        VisibleShows(init, r);
      }
    }
  }

  lemma SameIdSameRelease(table: seq<StoredRelease>, a: Release, b: Release)
    requires UniqueIds(table) && a in Visible(table) && b in Visible(table) && a.id == b.id
    ensures a == b
  {
    VisibleShows(table, a);
    VisibleShows(table, b);
  }

  lemma {:induction false} DistinctByIdKeepsOne(rs: seq<Release>)
    ensures DistinctIds(DistinctById(rs)) && Ids(DistinctById(rs)) == Ids(rs)
    ensures forall r :: r in DistinctById(rs) ==> r in rs
  {
    if rs != [] {
      var init, last := rs[..|rs| - 1], rs[|rs| - 1];
      DistinctByIdKeepsOne(init);
      assert rs == init + [last];
      assert Ids(rs) == Ids(init) + {last.id};
      var kept := DistinctById(init);
      assert Ids(kept + [last]) == Ids(kept) + {last.id};
      forall i | 0 <= i < |kept| && last.id !in Ids(kept) ensures kept[i].id != last.id {
        assert kept[i] in kept;
      }
    }
  }

  lemma {:induction false} CountOfDistinct(rs: seq<Release>, r: Release)
    requires DistinctIds(rs)
    ensures multiset(rs)[r] == if r in rs then 1 else 0
  {
    if rs != [] {
      var init, last := rs[..|rs| - 1], rs[|rs| - 1];
      CountOfDistinct(init, r);
      assert rs == init + [last];
      assert last !in init by {
        assert forall i :: 0 <= i < |init| ==> init[i] == rs[i] && rs[i].id != last.id;
      }
    }
  }

  lemma JudgeKeepsRelease(r: Release, s: Scene, durationMs: int)
    ensures var m := Judge(r, s, durationMs, false); m.Some? ==> m.value.release == r
  {
    hide Hamming, Parse;
  }

  lemma AppendCounts<T>(xs: seq<T>, x: T, y: T)
    ensures multiset(xs + [x])[y] == multiset(xs)[y] + if x == y then 1 else 0
  {
  }

  lemma {:induction false} CountOfMatches(rs: seq<Release>, s: Scene, durationMs: int, c: Candidate)
    ensures multiset(Matches(rs, s, durationMs, false))[c]
            == if Judge(c.release, s, durationMs, false) == Some(c) then multiset(rs)[c.release] else 0
  {
    hide Judge;
    if rs != [] {
      var init, last := rs[..|rs| - 1], rs[|rs| - 1];
      CountOfMatches(init, s, durationMs, c);
      assert rs == init + [last];
      AppendCounts(init, last, c.release);
      JudgeKeepsRelease(last, s, durationMs);
      match Judge(last, s, durationMs, false)
      case Some(m) => AppendCounts(Matches(init, s, durationMs, false), m, c);
      case None => assert Matches(rs, s, durationMs, false) == Matches(init, s, durationMs, false);
    }
  }

  /** A scene gets a matching release exactly when the catalogue shows it. */
  lemma MatchingReleaseReachesOnce(table: seq<StoredRelease>, s: Scene, durationMs: int, r: Release)
    requires UniqueIds(table) && Judge(r, s, durationMs, false).Some?
    ensures multiset(SceneReleases(table, s))[r] == multiset(Visible(table))[r]
  {
    var union := Union(table, KeysOf(s));
    DistinctByIdKeepsOne(union);
    VisibleIdsAreDistinct(table);
    CountOfDistinct(SceneReleases(table, s), r);
    CountOfDistinct(Visible(table), r);
    if r in Visible(table) {
      MatchesReachTheScene(table, s, durationMs, r);
      assert r.id in Ids(union);
      var kept :| kept in SceneReleases(table, s) && kept.id == r.id;
      OnlyVisibleReachTheScene(table, s, kept);
      SameIdSameRelease(table, kept, r);
    }
    if r in SceneReleases(table, s) {
      OnlyVisibleReachTheScene(table, s, r);
    }
  }

  lemma SceneMatchesAreTheScan(table: seq<StoredRelease>, s: Scene, durationMs: int)
    requires UniqueIds(table)
    ensures multiset(Matches(SceneReleases(table, s), s, durationMs, false)) == multiset(FullScan(table, s, durationMs))
  {
    var near, all := multiset(Matches(SceneReleases(table, s), s, durationMs, false)),
        multiset(FullScan(table, s, durationMs));
    FullScanJudgesVisible(table, s, durationMs);
    forall c ensures near[c] == all[c] {
      CountOfMatches(SceneReleases(table, s), s, durationMs, c);
      CountOfMatches(Visible(table), s, durationMs, c);
      if Judge(c.release, s, durationMs, false).Some? {
        MatchingReleaseReachesOnce(table, s, durationMs, c.release);
      }
    }
    assert near == all;
  }

  // Ranking: nothing added or lost but the siblings, which come last.

  /** Everything but offers; in bucketed mode, everything but siblings. */
  function Fingerprinted(cs: seq<Candidate>): seq<Candidate> {
    if cs == [] then []
    else Fingerprinted(cs[..|cs| - 1]) + if cs[|cs| - 1].confidence.Offer? then [] else [cs[|cs| - 1]]
  }

  lemma {:induction false} FingerprintedOfSum(a: seq<Candidate>, b: seq<Candidate>)
    ensures Fingerprinted(a + b) == Fingerprinted(a) + Fingerprinted(b)
  {
    if b == [] {
      assert a + b == a;
    } else {
      FingerprintedOfSum(a, b[..|b| - 1]);
      assert (a + b)[..|a + b| - 1] == a + b[..|b| - 1];
    }
  }

  lemma {:induction false} OffersAreDropped(cs: seq<Candidate>)
    requires forall i :: 0 <= i < |cs| ==> cs[i].confidence.Offer?
    ensures Fingerprinted(cs) == []
  {
    if cs != [] {
      OffersAreDropped(cs[..|cs| - 1]);
    }
  }

  lemma {:induction false} CountOfFingerprinted(cs: seq<Candidate>, c: Candidate)
    ensures multiset(Fingerprinted(cs))[c] == if c.confidence.Offer? then 0 else multiset(cs)[c]
  {
    if cs != [] {
      CountOfFingerprinted(cs[..|cs| - 1], c);
      assert cs == cs[..|cs| - 1] + [cs[|cs| - 1]];
    }
  }

  lemma {:induction false} SiblingsAside(rs: seq<Release>, s: Scene, durationMs: int)
    ensures Fingerprinted(WithSiblings(rs, s, durationMs, false)) == Matches(rs, s, durationMs, false)
  {
    if rs != [] {
      var init, last := rs[..|rs| - 1], rs[|rs| - 1];
      SiblingsAside(init, s, durationMs);
      match Judge(last, s, durationMs, false) {
        case Some(c) =>
          var more := if c.confidence.Exact? then OfSiblings(last, c.deltaMs) else [];
          OffersAreDropped(more);
          FingerprintedOfSum([c], more);
          assert [c][..0] == [] && Fingerprinted([c]) == [c];
          FingerprintedOfSum(WithSiblings(init, s, durationMs, false), [c] + more);
        case None =>
          assert WithSiblings(rs, s, durationMs, false) == WithSiblings(init, s, durationMs, false);
      }
    }
  }

  /** For every catalogue and every scene, the candidates offered on fingerprints are exactly
      those a scan of the whole catalogue finds, each once, best first. */
  lemma BucketedLookupIsExact(table: seq<StoredRelease>, s: Scene, durationMs: int)
    requires UniqueIds(table)
    ensures var out := Ranked(SceneReleases(table, s), s, durationMs, false);
            && multiset(Fingerprinted(out)) == multiset(FullScan(table, s, durationMs))
            && BestFirst(out)
  {
    var found := WithSiblings(SceneReleases(table, s), s, durationMs, false);
    var out := Ranked(SceneReleases(table, s), s, durationMs, false);
    RankedIsBestFirst(SceneReleases(table, s), s, durationMs, false);
    hide BestFirst, SortBy;
    forall c ensures multiset(Fingerprinted(out))[c] == multiset(Fingerprinted(found))[c] {
      CountOfFingerprinted(out, c);
      CountOfFingerprinted(found, c);
    }
    assert multiset(Fingerprinted(out)) == multiset(Fingerprinted(found));
    SiblingsAside(SceneReleases(table, s), s, durationMs);
    SceneMatchesAreTheScan(table, s, durationMs);
  }
}
