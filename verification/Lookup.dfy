/** Bucketed lookup, both ends: the batch endpoint of internal/api/lookup.go and the batching
    client of client/client.go. Buckets travel under textual keys; the releases a scene gets
    back are described by SceneReleases, which mentions neither requests nor keys.
 */
module Lookups {
  import opened Wrappers
  import opened Wire
  import opened PHashing
  import Hex

  // -- The catalogue -------------------------------------------------------

  datatype StoredRelease = StoredRelease(
    id: int, oshash: string, phash: Option<PHash>, durationMs: int, withdrawn: bool,
    tracks: seq<TrackSummary>, siblings: seq<Sibling>)

  /** lookupReleases: the hash travels in its padded text form. */
  function OnTheWire(r: StoredRelease): Release {
    Release(r.id, r.oshash, if r.phash.Some? then Some(ToString(r.phash.value)) else None, r.durationMs,
            r.tracks, r.siblings)
  }

  // -- Bucket keys -----------------------------------------------------------

  datatype Key = OshashKey(prefix: string) | BlockKey(block: nat, value: nat)

  function BlockMax(block: nat): nat {
    if block == 4 then 0xFFF else 0x1FFF
  }

  predicate IsLowerHex(s: string) {
    forall c :: c in s ==> '0' <= c <= '9' || 'a' <= c <= 'f'
  }

  /** ^[0-9a-f]{5}$ */
  predicate IsPrefix(s: string) {
    |s| == 5 && IsLowerHex(s)
  }

  predicate ValidKey(k: Key) {
    match k
    case OshashKey(prefix) => IsPrefix(prefix)
    case BlockKey(block, value) => block < BLOCKS && value <= BlockMax(block)
  }

  const OSHASH_TAG := "oshash:"
  const PHASH_TAG := "phash:"

  /** "oshash:<prefix>", or "phash:<block>:<val>" with the value in unpadded hex. */
  function Text(k: Key): string
    requires ValidKey(k)
  {
    match k
    case OshashKey(prefix) => OSHASH_TAG + prefix
    case BlockKey(block, value) => PHASH_TAG + [Hex.Digit(block)] + ":" + Hex.Print(value)
  }

  predicate IsDecimalDigit(c: char) {
    '0' <= c <= '9'
  }

  function LeadingDigits(s: string): (n: nat)
    ensures n <= |s| && forall i :: 0 <= i < n ==> IsDecimalDigit(s[i])
  {
    if s == "" || !IsDecimalDigit(s[0]) then 0 else 1 + LeadingDigits(s[1..])
  }

  function Decimal(s: string): nat
    requires forall c :: c in s ==> IsDecimalDigit(c)
  {
    if s == "" then 0
    else
      assert IsDecimalDigit(s[|s| - 1]);
      10 * Decimal(s[..|s| - 1]) + (s[|s| - 1] as int - '0' as int)
  }

  /** Sscanf(s, "phash:%d:%s"), for text without spaces or signs. */
  function ScanPhashKey(s: string): Option<(nat, string)> {
    if !(PHASH_TAG <= s) then None
    else
      var rest := s[|PHASH_TAG|..];
      var n := LeadingDigits(rest);
      if n == 0 || |rest| < n + 2 || rest[n] != ':' then None else Some((Decimal(rest[..n]), rest[n + 1..]))
  }

  /** The bucket a result key names. */
  function KeyNamed(s: string): Option<Key> {
    match ScanPhashKey(s)
    case Some((block, val)) =>
      (match Hex.ParseUint(val, Hex.MAX_UINT16)
       case Some(value) => Some(BlockKey(block, value))
       case None => None)
    case None => if OSHASH_TAG <= s then Some(OshashKey(s[|OSHASH_TAG|..])) else None
  }

  lemma OshashTextIsNotScanned(prefix: string)
    ensures ScanPhashKey(OSHASH_TAG + prefix).None?
    ensures OSHASH_TAG <= OSHASH_TAG + prefix && (OSHASH_TAG + prefix)[|OSHASH_TAG|..] == prefix
  {
    assert (OSHASH_TAG + prefix)[0] == 'o';
  }

  lemma PhashTextScans(block: nat, val: string)
    requires block < BLOCKS && val != ""
    ensures ScanPhashKey(PHASH_TAG + [Hex.Digit(block)] + ":" + val) == Some((block, val))
  {
    var digit := Hex.Digit(block);
    var s := PHASH_TAG + [digit] + ":" + val;
    var rest := s[|PHASH_TAG|..];
    assert rest == [digit] + ":" + val;
    assert rest[0] == digit && rest[1] == ':' && rest[1..][0] == ':';
    assert LeadingDigits(rest) == 1;
    assert rest[..1] == [digit] && rest[2..] == val;
    assert Decimal([digit]) == 10 * Decimal([digit][..0]) + block;
  }

  /** A printed key scans, and parses, back to the key it was printed from. */
  lemma KeyRoundTrip(k: Key)
    requires ValidKey(k)
    ensures KeyNamed(Text(k)) == Some(k)
    ensures k.OshashKey? ==> ScanPhashKey(Text(k)).None? && Text(k)[|OSHASH_TAG|..] == k.prefix
    ensures k.BlockKey? ==> ScanPhashKey(Text(k)) == Some((k.block, Hex.Print(k.value)))
  {
    match k
    case OshashKey(prefix) =>
      OshashTextIsNotScanned(prefix);
    case BlockKey(block, value) =>
      PhashTextScans(block, Hex.Print(value));
      Hex.PrintParses(value, Hex.MAX_UINT16);
  }

  /** How keys look. */
  lemma KeysAsText(prefix: string)
    requires IsPrefix(prefix)
    ensures Text(OshashKey(prefix)) == "oshash:" + prefix
    ensures Text(BlockKey(0, 7)) == "phash:0:7" && Text(BlockKey(4, 0xABC)) == "phash:4:abc"
  {
    assert Hex.Print(7) == "7" && Hex.Print(0xA) == "a" && Hex.Print(0xAB) == "ab" && Hex.Print(0xABC) == "abc";
    assert [Hex.Digit(0)] == "0" && [Hex.Digit(4)] == "4";
  }

  /** The block keys that are valid are those some hash has. */
  lemma BlocksAreReal(block: nat, value: nat)
    ensures ValidKey(BlockKey(block, value)) <==>
            block < 5 && exists h: PHash :: Block(h, block) == value
  {
    if ValidKey(BlockKey(block, value)) {
      var h: PHash := match block
        case 0 => value * 0x8_0000_0000_0000
        case 1 => value * 0x40_0000_0000
        case 2 => value * 0x200_0000
        case 3 => value * 0x1000
        case _ => value;
      assert Block(h, block) == value;
    }
  }

  // -- The batch endpoint ----------------------------------------------------

  const MAX_BATCH_ENTRIES := 100

  datatype BlockQuery = BlockQuery(block: int, val: string)

  datatype BatchRequest = BatchRequest(oshashPrefixes: seq<string>, phashBlocks: seq<BlockQuery>) {
    function Size(): nat {
      |oshashPrefixes| + |phashBlocks|
    }
  }

  datatype BatchError =
    | NoEntries
    | TooManyEntries(total: nat)
    | BadPrefix(at: nat)
    | BadBlock(at: nat)
    | BadVal(at: nat)
    | ValOutOfRange(at: nat)

  type Results = map<string, seq<Release>>

  predicate InBucket(k: Key, r: StoredRelease) {
    match k
    case OshashKey(prefix) => (if |r.oshash| < 5 then r.oshash else r.oshash[..5]) == prefix
    case BlockKey(block, value) => block < BLOCKS && r.phash.Some? && Block(r.phash.value, block) == value
  }

  /** The visible releases of one bucket, in table order. */
  function Rows(table: seq<StoredRelease>, k: Key): seq<Release> {
    if table == [] then []
    else
      var last := table[|table| - 1];
      Rows(table[..|table| - 1], k) + if !last.withdrawn && InBucket(k, last) then [OnTheWire(last)] else []
  }

  lemma {:induction false} RowsShow(table: seq<StoredRelease>, k: Key, r: Release)
    ensures r in Rows(table, k) <==> exists row :: row in table && Shows(row, r) && InBucket(k, row)
  {
    hide InBucket, OnTheWire;
    if table != [] {
      RowsShow(table[..|table| - 1], k, r);
      assert table == table[..|table| - 1] + [table[|table| - 1]];
    }
  }

  /** `r` is what `row` looks like on the wire. */
  predicate Shows(row: StoredRelease, r: Release) {
    !row.withdrawn && OnTheWire(row) == r
  }

  predicate HasBlock(row: StoredRelease, block: nat, value: nat) {
    block < 5 && row.phash.Some? && Block(row.phash.value, block) == value
  }

  /** What a bucket holds: the visible releases whose oshash starts with the prefix, or whose phash has
      that block. */
  lemma BucketsHoldWhatTheyName(table: seq<StoredRelease>, prefix: string, block: nat, value: nat, r: Release)
    requires |prefix| == 5
    ensures r in Rows(table, OshashKey(prefix)) <==>
            exists row :: row in table && Shows(row, r) && prefix <= row.oshash
    ensures r in Rows(table, BlockKey(block, value)) <==>
            exists row :: row in table && Shows(row, r) && HasBlock(row, block, value)
  {
    RowsShow(table, OshashKey(prefix), r);
    RowsShow(table, BlockKey(block, value), r);
    forall row ensures InBucket(OshashKey(prefix), row) <==> prefix <= row.oshash {
      if |row.oshash| >= 5 {
        assert prefix <= row.oshash <==> row.oshash[..5] == prefix;
      }
    }
    hide Rows, Shows;
  }

  function RowsNamed(table: seq<StoredRelease>, key: string): seq<Release> {
    match KeyNamed(key)
    case Some(k) => Rows(table, k)
    case None => []
  }

  function ToLower(s: string): string {
    seq(|s|, i requires 0 <= i < |s| => if 'A' <= s[i] <= 'Z' then s[i] + 32 as char else s[i])
  }

  function OshashResultKey(prefix: string): string {
    OSHASH_TAG + prefix
  }

  function PhashResultKey(q: BlockQuery): string
    requires 0 <= q.block < BLOCKS
  {
    PHASH_TAG + [Hex.Digit(q.block)] + ":" + ToLower(q.val)
  }

  predicate ValidBlock(q: BlockQuery) {
    && 0 <= q.block < BLOCKS
    && Hex.ParseUint(q.val, Hex.MAX_UINT16).Some?
    && Hex.ParseUint(q.val, Hex.MAX_UINT16).value <= BlockMax(q.block)
  }

  predicate AllPrefixes(ps: seq<string>) {
    forall i :: 0 <= i < |ps| ==> IsPrefix(ps[i])
  }

  predicate AllBlocks(qs: seq<BlockQuery>) {
    forall i :: 0 <= i < |qs| ==> ValidBlock(qs[i])
  }

  predicate ValidRequest(req: BatchRequest) {
    1 <= req.Size() <= 100 && AllPrefixes(req.oshashPrefixes) && AllBlocks(req.phashBlocks)
  }

  /** The error names the first entry that is wrong, and how. */
  predicate Blames(req: BatchRequest, error: BatchError) {
    match error
    case NoEntries => req.Size() == 0
    case TooManyEntries(total) => total == req.Size() > 100
    case BadPrefix(at) =>
      at < |req.oshashPrefixes| && AllPrefixes(req.oshashPrefixes[..at]) && !IsPrefix(req.oshashPrefixes[at])
    case BadBlock(at) =>
      FirstBadBlock(req, at) && !(0 <= req.phashBlocks[at].block <= 4)
    case BadVal(at) =>
      && FirstBadBlock(req, at) && 0 <= req.phashBlocks[at].block <= 4
      && Hex.ParseUint(req.phashBlocks[at].val, Hex.MAX_UINT16).None?
    case ValOutOfRange(at) =>
      && FirstBadBlock(req, at) && 0 <= req.phashBlocks[at].block <= 4
      && Hex.ParseUint(req.phashBlocks[at].val, Hex.MAX_UINT16).Some?
  }

  predicate FirstBadBlock(req: BatchRequest, at: nat) {
    && AllPrefixes(req.oshashPrefixes)
    && at < |req.phashBlocks| && AllBlocks(req.phashBlocks[..at]) && !ValidBlock(req.phashBlocks[at])
  }

  function PrefixKeys(ps: seq<string>): set<string> {
    set i | 0 <= i < |ps| :: OshashResultKey(ps[i])
  }

  function PhashKeys(qs: seq<BlockQuery>): set<string>
    requires AllBlocks(qs)
  {
    set i | 0 <= i < |qs| :: PhashResultKey(qs[i])
  }

  function ResultKeys(req: BatchRequest): set<string>
    requires AllBlocks(req.phashBlocks)
  {
    PrefixKeys(req.oshashPrefixes) + PhashKeys(req.phashBlocks)
  }

  /** Every named bucket under its key. */
  function Buckets(table: seq<StoredRelease>, keys: set<string>): Results {
    map k | k in keys :: RowsNamed(table, k)
  }

  lemma OneMoreBucket(table: seq<StoredRelease>, keys: set<string>, more: set<string>, key: string)
    requires more == keys + {key}
    ensures Buckets(table, keys)[key := RowsNamed(table, key)] == Buckets(table, more)
  {
  }

  lemma {:induction false} ParseIgnoresCase(s: string, max: nat)
    ensures Hex.ParseDigits(ToLower(s), max) == Hex.ParseDigits(s, max)
  {
    if s != "" {
      ParseIgnoresCase(s[..|s| - 1], max);
      assert ToLower(s)[..|s| - 1] == ToLower(s[..|s| - 1]);
    }
  }

  lemma PrefixKeyNamesItsBucket(prefix: string)
    ensures KeyNamed(OshashResultKey(prefix)) == Some(OshashKey(prefix))
  {
    OshashTextIsNotScanned(prefix);
  }

  /** A response key names the bucket its entry asked for. */
  lemma ResultKeyNamesItsBucket(q: BlockQuery)
    requires ValidBlock(q)
    ensures KeyNamed(PhashResultKey(q)) == Some(BlockKey(q.block, Hex.ParseUint(q.val, Hex.MAX_UINT16).value))
  {
    PhashTextScans(q.block, ToLower(q.val));
    ParseIgnoresCase(q.val, Hex.MAX_UINT16);
  }

  lemma ExtendByPrefix(ps: seq<string>, i: nat)
    requires i < |ps|
    ensures PrefixKeys(ps[..i + 1]) == PrefixKeys(ps[..i]) + {OshashResultKey(ps[i])}
  {
    assert forall j :: 0 <= j < i ==> ps[..i + 1][j] == ps[..i][j] == ps[j];
    assert ps[..i + 1][i] == ps[i];
  }

  lemma ExtendByBlock(qs: seq<BlockQuery>, i: nat)
    requires i < |qs| && AllBlocks(qs[..i]) && ValidBlock(qs[i])
    ensures AllBlocks(qs[..i + 1])
    ensures PhashKeys(qs[..i + 1]) == PhashKeys(qs[..i]) + {PhashResultKey(qs[i])}
  {
    assert forall j :: 0 <= j < i ==> qs[..i + 1][j] == qs[..i][j] == qs[j];
    assert qs[..i + 1][i] == qs[i];
  }

  lemma NoBucketsYet(table: seq<StoredRelease>, req: BatchRequest)
    ensures AllPrefixes(req.oshashPrefixes[..0]) && AllBlocks(req.phashBlocks[..0])
    ensures Buckets(table, PrefixKeys(req.oshashPrefixes[..0])) == map[]
    ensures PrefixKeys(req.oshashPrefixes) + PhashKeys(req.phashBlocks[..0]) == PrefixKeys(req.oshashPrefixes)
  {
  }

  /** One entry's bucket joins the response. */
  lemma PrefixJoins(table: seq<StoredRelease>, ps: seq<string>, i: nat)
    requires i < |ps|
    ensures Buckets(table, PrefixKeys(ps[..i]))[OshashResultKey(ps[i]) := Rows(table, OshashKey(ps[i]))]
            == Buckets(table, PrefixKeys(ps[..i + 1]))
    ensures AllPrefixes(ps[..i]) && IsPrefix(ps[i]) ==> AllPrefixes(ps[..i + 1])
  {
    PrefixKeyNamesItsBucket(ps[i]);
    ExtendByPrefix(ps, i);
    OneMoreBucket(table, PrefixKeys(ps[..i]), PrefixKeys(ps[..i + 1]), OshashResultKey(ps[i]));
  }

  lemma BlockJoins(table: seq<StoredRelease>, keys: set<string>, qs: seq<BlockQuery>, i: nat)
    requires i < |qs| && AllBlocks(qs[..i]) && ValidBlock(qs[i])
    ensures AllBlocks(qs[..i + 1])
    ensures Buckets(table, keys + PhashKeys(qs[..i]))
            [PhashResultKey(qs[i]) := Rows(table,
                BlockKey(qs[i].block, Hex.ParseUint(qs[i].val, Hex.MAX_UINT16).value))]
            == Buckets(table, keys + PhashKeys(qs[..i + 1]))
  {
    ResultKeyNamesItsBucket(qs[i]);
    ExtendByBlock(qs, i);
    OneMoreBucket(table, keys + PhashKeys(qs[..i]), keys + PhashKeys(qs[..i + 1]), PhashResultKey(qs[i]));
  }

  lemma BadPrefixSpoils(req: BatchRequest, i: nat)
    requires i < |req.oshashPrefixes| && !IsPrefix(req.oshashPrefixes[i])
    ensures !ValidRequest(req)
  {
  }

  lemma BadBlockSpoils(req: BatchRequest, i: nat)
    requires i < |req.phashBlocks| && !ValidBlock(req.phashBlocks[i])
    ensures !ValidRequest(req)
  {
  }

  method HandleLookupBatch(table: seq<StoredRelease>, req: BatchRequest)
    returns (r: Result<Results, BatchError>)
    ensures r.Success? <==> ValidRequest(req)
    ensures r.Success? ==> r.value == Buckets(table, ResultKeys(req))
    ensures r.Failure? ==> Blames(req, r.error)
  {
    hide Buckets, Rows, PrefixKeys, PhashKeys, IsPrefix;
    var total := req.Size();
    if total == 0 {
      return Failure(NoEntries);
    }
    if total > MAX_BATCH_ENTRIES {
      return Failure(TooManyEntries(total));
    }
    var results: Results := map[];
    NoBucketsYet(table, req);
    for i := 0 to |req.oshashPrefixes|
      invariant AllPrefixes(req.oshashPrefixes[..i])
      invariant results == Buckets(table, PrefixKeys(req.oshashPrefixes[..i]))
    {
      var prefix := req.oshashPrefixes[i];
      if !IsPrefix(prefix) {
        BadPrefixSpoils(req, i);
        return Failure(BadPrefix(i));
      }
      PrefixJoins(table, req.oshashPrefixes, i);
      results := results[OshashResultKey(prefix) := Rows(table, OshashKey(prefix))];
    }
    assert req.oshashPrefixes[..|req.oshashPrefixes|] == req.oshashPrefixes;
    for i := 0 to |req.phashBlocks|
      invariant AllBlocks(req.phashBlocks[..i])
      invariant results == Buckets(table, PrefixKeys(req.oshashPrefixes) + PhashKeys(req.phashBlocks[..i]))
    {
      var q := req.phashBlocks[i];
      if q.block < 0 || q.block > 4 {
        BadBlockSpoils(req, i);
        return Failure(BadBlock(i));
      }
      var val := Hex.ParseUint(q.val, Hex.MAX_UINT16);
      if val.None? {
        BadBlockSpoils(req, i);
        return Failure(BadVal(i));
      }
      if val.value > BlockMax(q.block) {
        BadBlockSpoils(req, i);
        return Failure(ValOutOfRange(i));
      }
      BlockJoins(table, PrefixKeys(req.oshashPrefixes), req.phashBlocks, i);
      results := results[PhashResultKey(q) := Rows(table, BlockKey(q.block, val.value))];
    }
    assert req.phashBlocks[..|req.phashBlocks|] == req.phashBlocks;
    return Success(results);
  }
}
