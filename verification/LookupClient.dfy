/** LookupBuckets and LookupBucketsBatch of client/client.go: the buckets of many scenes in as
    few requests as the batch cap allows.
 */
module LookupClient {
  import opened Wrappers
  import opened Wire
  import opened PHashing
  import opened Lookups
  import Hex

  type OSHash = s: string | |s| == 16 && IsLowerHex(s) witness "0000000000000000"

  datatype Scene = Scene(oshash: OSHash, phash: Option<PHash>)

  // -- What a scene should get ---------------------------------------------

  function KeysOf(s: Scene): (keys: seq<Key>)
    ensures forall k :: k in keys ==> ValidKey(k)
  {
    assert forall c :: c in s.oshash[..5] ==> c in s.oshash;
    [OshashKey(s.oshash[..5])] +
    if s.phash.None? then []
    else seq(BLOCKS, i requires 0 <= i < BLOCKS => BlockKey(i, Block(s.phash.value, i)))
  }

  function Ids(rs: seq<Release>): set<int> {
    set r | r in rs :: r.id
  }

  /** Keeps the first release of every id. */
  function DistinctById(rs: seq<Release>): seq<Release> {
    if rs == [] then []
    else
      var kept, last := DistinctById(rs[..|rs| - 1]), rs[|rs| - 1];
      if last.id in Ids(kept) then kept else kept + [last]
  }

  function Union(table: seq<StoredRelease>, keys: seq<Key>): seq<Release> {
    if keys == [] then [] else Union(table, keys[..|keys| - 1]) + Rows(table, keys[|keys| - 1])
  }

  /** The scene's buckets one after another, each release once. */
  function SceneReleases(table: seq<StoredRelease>, s: Scene): seq<Release> {
    DistinctById(Union(table, KeysOf(s)))
  }

  // -- Keys as text ----------------------------------------------------------

  function Texts(keys: seq<Key>): set<string>
    requires forall k :: k in keys ==> ValidKey(k)
  {
    set k | k in keys :: Text(k)
  }

  function KeyTexts(s: Scene): set<string> {
    Texts(KeysOf(s))
  }

  function Needed(scenes: seq<Scene>): set<string> {
    if scenes == [] then {} else Needed(scenes[..|scenes| - 1]) + KeyTexts(scenes[|scenes| - 1])
  }

  predicate IsKeyText(k: string) {
    KeyNamed(k).Some? && ValidKey(KeyNamed(k).value) && Text(KeyNamed(k).value) == k
  }

  lemma {:induction false} NeededAreKeyTexts(scenes: seq<Scene>)
    ensures forall k :: k in Needed(scenes) ==> IsKeyText(k)
    ensures forall s :: s in scenes ==> KeyTexts(s) <= Needed(scenes)
  {
    if scenes != [] {
      var last := scenes[|scenes| - 1];
      NeededAreKeyTexts(scenes[..|scenes| - 1]);
      assert scenes == scenes[..|scenes| - 1] + [last];
      forall k | k in KeysOf(last) ensures IsKeyText(Text(k)) {
        KeyRoundTrip(k);
      }
    }
  }

  lemma {:induction false} PrintIsLowerCase(v: nat)
    ensures ToLower(Hex.Print(v)) == Hex.Print(v)
  {
    if v >= 16 {
      PrintIsLowerCase(v / 16);
      assert forall i :: 0 <= i < |Hex.Print(v / 16)| ==> ToLower(Hex.Print(v / 16))[i] == Hex.Print(v / 16)[i];
    }
  }

  /** The prefixes that are valid are those some oshash has. */
  lemma PrefixesAreReal(prefix: string)
    ensures IsPrefix(prefix) <==> exists o: OSHash :: o[..5] == prefix
  {
    if IsPrefix(prefix) {
      var s := prefix + "00000000000";
      assert |s| == 16 && forall c :: c in s ==> c in prefix || c == '0';
      var o: OSHash := s;
      assert o[..5] == prefix;
    }
    if o: OSHash :| o[..5] == prefix {
      assert forall c :: c in prefix ==> c in o;
    }
  }

  lemma SameBlocksSameHash(a: PHash, b: PHash)
    requires forall i: nat :: i < BLOCKS ==> Block(a, i) == Block(b, i)
    ensures a == b
  {
    HammingIsSumOfBlockDistances(a, b);
    HammingZeroMeansEqual(a, b);
    forall i: nat | i < BLOCKS ensures BlockDistance(a, b, i) == 0 {
      HammingZeroMeansEqual(Block(a, i), Block(b, i));
    }
    hide Hamming, Block;
  }

  lemma PrefixKeyIsAsked(s: Scene, prefix: string)
    ensures OshashKey(prefix) in KeysOf(s) <==> prefix == s.oshash[..5]
  {
    assert KeysOf(s)[0] == OshashKey(s.oshash[..5]);
  }

  lemma BlockKeyIsAsked(s: Scene, block: nat, value: nat)
    ensures BlockKey(block, value) in KeysOf(s) <==>
            s.phash.Some? && block < BLOCKS && value == Block(s.phash.value, block)
  {
    hide Block;
    if s.phash.Some? && block < BLOCKS {
      assert KeysOf(s)[block + 1] == BlockKey(block, Block(s.phash.value, block));
    }
  }

  lemma AskedAsText(s: Scene, k: Key)
    requires ValidKey(k)
    ensures Text(k) in KeyTexts(s) <==> k in KeysOf(s)
  {
    KeyRoundTrip(k);
    if Text(k) in KeyTexts(s) {
      var j :| j in KeysOf(s) && Text(j) == Text(k);
      KeyRoundTrip(j);
    }
  }

  lemma SameTextsSameKeys(a: Scene, b: Scene)
    requires KeyTexts(a) == KeyTexts(b)
    ensures forall k :: k in KeysOf(a) <==> k in KeysOf(b)
  {
    forall k ensures k in KeysOf(a) <==> k in KeysOf(b) {
      if k in KeysOf(a) || k in KeysOf(b) {
        AskedAsText(a, k);
        AskedAsText(b, k);
      }
    }
    hide KeyTexts, KeysOf;
  }

  /** What a lookup tells the node: five digits of the oshash, and the phash; nothing else of the file. */
  lemma LookupTellsApartIff(a: Scene, b: Scene)
    ensures KeyTexts(a) == KeyTexts(b) <==> a.oshash[..5] == b.oshash[..5] && a.phash == b.phash
  {
    if KeyTexts(a) == KeyTexts(b) {
      SameTextsSameKeys(a, b);
      PrefixKeyIsAsked(a, a.oshash[..5]);
      PrefixKeyIsAsked(b, a.oshash[..5]);
      if a.phash.Some? {
        BlockKeyIsAsked(a, 0, Block(a.phash.value, 0));
        BlockKeyIsAsked(b, 0, Block(a.phash.value, 0));
        forall i: nat | i < BLOCKS ensures Block(a.phash.value, i) == Block(b.phash.value, i) {
          BlockKeyIsAsked(a, i, Block(a.phash.value, i));
          BlockKeyIsAsked(b, i, Block(a.phash.value, i));
        }
        SameBlocksSameHash(a.phash.value, b.phash.value);
      } else if b.phash.Some? {
        BlockKeyIsAsked(a, 0, Block(b.phash.value, 0));
        BlockKeyIsAsked(b, 0, Block(b.phash.value, 0));
      }
    }
    hide KeysOf, KeyTexts, Block;
  }

  method BucketKeys(s: Scene) returns (keys: seq<string>)
    ensures |keys| == |KeysOf(s)| && forall i :: 0 <= i < |keys| ==> keys[i] == Text(KeysOf(s)[i])
  {
    keys := [OSHASH_TAG + s.oshash[..5]];
    if s.phash.Some? {
      for i := 0 to BLOCKS
        invariant |keys| == i + 1 && forall j :: 0 <= j < |keys| ==> keys[j] == Text(KeysOf(s)[j])
      {
        keys := keys + [PHASH_TAG + [Hex.Digit(i)] + ":" + Hex.Print(Block(s.phash.value, i))];
      }
    }
  }

  // -- The server as the client sees it ----------------------------------------

  datatype ClientError = Rejected(error: BatchError) | Unreachable

  class Server {
    const table: seq<StoredRelease>
    /** Which requests, by number, never get an answer. */
    const outage: nat -> bool
    var requests: seq<BatchRequest>

    constructor (table: seq<StoredRelease>, outage: nat -> bool)
      ensures this.table == table && this.outage == outage && requests == []
    {
      this.table, this.outage, requests := table, outage, [];
    }

    method Post(req: BatchRequest) returns (r: Result<Results, ClientError>)
      modifies this
      ensures requests == old(requests) + [req]
      ensures outage(|old(requests)|) ==> r == Failure(Unreachable)
      ensures !outage(|old(requests)|) && ValidRequest(req) ==> r == Success(Buckets(table, ResultKeys(req)))
      ensures !outage(|old(requests)|) && !ValidRequest(req) ==>
                r.Failure? && r.error.Rejected? && Blames(req, r.error.error)
    {
      requests := requests + [req];
      if outage(|requests| - 1) {
        return Failure(Unreachable);
      }
      var answer := HandleLookupBatch(table, req);
      match answer
      case Success(results) => return Success(results);
      case Failure(error) => return Failure(Rejected(error));
    }
  }

  // -- Requests ------------------------------------------------------------------

  function Elements<T>(s: seq<T>): set<T> {
    set x | x in s
  }

  lemma ElementsOfPrefix<T>(s: seq<T>, i: nat)
    requires i < |s|
    ensures Elements(s[..i + 1]) == Elements(s[..i]) + {s[i]}
  {
    assert s[..i + 1] == s[..i] + [s[i]];
  }

  lemma BlockEntry(k: string)
    requires IsKeyText(k) && ScanPhashKey(k).Some?
    ensures var (block, val) := ScanPhashKey(k).value;
            ValidBlock(BlockQuery(block, val)) && PhashResultKey(BlockQuery(block, val)) == k
  {
    var key := KeyNamed(k).value;
    KeyRoundTrip(key);
    Hex.PrintParses(key.value, Hex.MAX_UINT16);
    PrintIsLowerCase(key.value);
  }

  lemma PrefixEntry(k: string)
    requires IsKeyText(k) && ScanPhashKey(k).None?
    ensures OSHASH_TAG <= k && IsPrefix(k[|OSHASH_TAG|..]) && OshashResultKey(k[|OSHASH_TAG|..]) == k
  {
    KeyRoundTrip(KeyNamed(k).value);
  }

  lemma AppendPrefix(ps: seq<string>, p: string)
    ensures PrefixKeys(ps + [p]) == PrefixKeys(ps) + {OshashResultKey(p)}
    ensures AllPrefixes(ps) && IsPrefix(p) ==> AllPrefixes(ps + [p])
  {
    ExtendByPrefix(ps + [p], |ps|);
    assert (ps + [p])[..|ps|] == ps && (ps + [p])[..|ps| + 1] == ps + [p];
  }

  lemma AppendBlock(qs: seq<BlockQuery>, q: BlockQuery)
    requires AllBlocks(qs) && ValidBlock(q)
    ensures AllBlocks(qs + [q]) && PhashKeys(qs + [q]) == PhashKeys(qs) + {PhashResultKey(q)}
  {
    assert (qs + [q])[..|qs|] == qs && (qs + [q])[..|qs| + 1] == qs + [q];
    ExtendByBlock(qs + [q], |qs|);
  }

  /** Every key becomes the entry whose response key is that very key. */
  method BuildRequest(chunk: seq<string>) returns (req: BatchRequest)
    requires forall k :: k in chunk ==> IsKeyText(k)
    ensures req.Size() == |chunk| && AllPrefixes(req.oshashPrefixes) && AllBlocks(req.phashBlocks)
    ensures ResultKeys(req) == Elements(chunk)
  {
    req := BatchRequest([], []);
    for i := 0 to |chunk|
      invariant req.Size() == i && AllPrefixes(req.oshashPrefixes) && AllBlocks(req.phashBlocks)
      invariant ResultKeys(req) == Elements(chunk[..i])
    {
      ElementsOfPrefix(chunk, i);
      match ScanPhashKey(chunk[i]) {
        case Some((block, val)) =>
          BlockEntry(chunk[i]);
          AppendBlock(req.phashBlocks, BlockQuery(block, val));
          req := req.(phashBlocks := req.phashBlocks + [BlockQuery(block, val)]);
        case None =>
          PrefixEntry(chunk[i]);
          AppendPrefix(req.oshashPrefixes, chunk[i][|OSHASH_TAG|..]);
          req := req.(oshashPrefixes := req.oshashPrefixes + [chunk[i][|OSHASH_TAG|..]]);
      }
    }
    assert chunk[..|chunk|] == chunk;
  }

  /** The keys of a set in some order: iterating a Go map promises no more. */
  method InSomeOrder(keys: set<string>) returns (entries: seq<string>)
    ensures Elements(entries) == keys && |entries| == |keys|
  {
    entries := [];
    var pending := keys;
    while pending != {}
      invariant pending <= keys && Elements(entries) == keys - pending && |entries| == |keys| - |pending|
      decreases |pending|
    {
      var k :| k in pending;
      assert Elements(entries + [k]) == Elements(entries) + {k};
      entries, pending := entries + [k], pending - {k};
    }
  }

  lemma BucketsTogether(table: seq<StoredRelease>, a: set<string>, b: set<string>)
    ensures Buckets(table, a) + Buckets(table, b) == Buckets(table, a + b)
  {
  }

  /** One request for one chunk of keys. */
  method FetchChunk(server: Server, chunk: seq<string>) returns (r: Result<Results, ClientError>)
    requires 1 <= |chunk| <= MAX_BATCH_ENTRIES && forall k :: k in chunk ==> IsKeyText(k)
    modifies server
    ensures Sent(old(server.requests), server.requests, 1)
    ensures r == if server.outage(|old(server.requests)|) then Failure(Unreachable)
                 else Success(Buckets(server.table, Elements(chunk)))
  {
    var req := BuildRequest(chunk);
    r := server.Post(req);
  }

  lemma ChunkElements(entries: seq<string>, start: nat, end: nat)
    requires start <= end <= |entries|
    ensures Elements(entries[..end]) == Elements(entries[..start]) + Elements(entries[start..end])
    ensures forall k :: k in entries[start..end] ==> k in Elements(entries)
    ensures start == 0 ==> Elements(entries[..start]) == {}
    ensures end == |entries| ==> Elements(entries[..end]) == Elements(entries)
  {
    assert entries[..end] == entries[..start] + entries[start..end];
  }

  /** Requests for `n` distinct keys. */
  function RequestsFor(n: nat): nat {
    (n + MAX_BATCH_ENTRIES - 1) / MAX_BATCH_ENTRIES
  }

  /** Between two logs of requests the server received `n` more, all of them within its rules. */
  ghost predicate Sent(before: seq<BatchRequest>, after: seq<BatchRequest>, n: nat) {
    && before <= after && |after| == |before| + n
    && forall i :: |before| <= i < |after| ==> ValidRequest(after[i])
  }

  lemma OneMoreSent(before: seq<BatchRequest>, log: seq<BatchRequest>, n: nat, after: seq<BatchRequest>)
    requires Sent(before, log, n) && Sent(log, after, 1)
    ensures Sent(before, after, n + 1) && |log| == |before| + n
  {
    forall i | |before| <= i < |after| ensures ValidRequest(after[i]) {
      assert i < |log| ==> after[i] == log[i];
    }
  }

  lemma OneMoreAnswered(outage: nat -> bool, from: nat, n: nat)
    requires Answering(outage, from, n) && !outage(from + n)
    ensures Answering(outage, from, n + 1)
  {
  }

  /** The server answers its next `n` requests. */
  ghost predicate Answering(outage: nat -> bool, from: nat, n: nat) {
    forall i :: from <= i < from + n ==> !outage(i)
  }

  lemma NothingYet(server: Server)
    ensures Sent(server.requests, server.requests, 0) && Answering(server.outage, |server.requests|, 0)
    ensures Buckets(server.table, {}) == map[]
  {
  }

  /** Nothing is sent after a request that gets no answer. */
  method FetchBuckets(server: Server, need: set<string>) returns (r: Result<Results, ClientError>, ghost n: nat)
    requires forall k :: k in need ==> IsKeyText(k)
    modifies server
    ensures Sent(old(server.requests), server.requests, n)
    ensures r.Success? ==> n == RequestsFor(|need|) && Answering(server.outage, |old(server.requests)|, n)
    ensures r.Success? ==> r.value == Buckets(server.table, need)
    ensures r.Failure? ==> 1 <= n <= RequestsFor(|need|) && server.outage(|old(server.requests)| + n - 1)
    ensures r.Failure? ==> r.error == Unreachable
  {
    hide Elements, Sent, Answering, IsKeyText, Buckets;
    var results: Results := map[];
    var entries := InSomeOrder(need);
    ghost var done: set<string> := {};
    var start := 0;
    n := 0;
    NothingYet(server);
    ChunkElements(entries, 0, 0);
    while start < |entries|
      invariant start == MAX_BATCH_ENTRIES * n && start < |entries| + MAX_BATCH_ENTRIES
      invariant Sent(old(server.requests), server.requests, n)
      invariant Answering(server.outage, |old(server.requests)|, n)
      invariant results == Buckets(server.table, done)
      invariant done == if start < |entries| then Elements(entries[..start]) else need
    {
      var end := if start + MAX_BATCH_ENTRIES > |entries| then |entries| else start + MAX_BATCH_ENTRIES;
      var chunk := entries[start..end];
      ChunkElements(entries, start, end);
      ghost var log := server.requests;
      var answer := FetchChunk(server, chunk);
      OneMoreSent(old(server.requests), log, n, server.requests);
      n := n + 1;
      if answer.Failure? {
        return Failure(answer.error), n;
      }
      OneMoreAnswered(server.outage, |old(server.requests)|, n - 1);
      BucketsTogether(server.table, done, Elements(chunk));
      results, done := results + answer.value, done + Elements(chunk);
      start := start + MAX_BATCH_ENTRIES;
    }
    return Success(results), n;
  }

  // -- Lookup --------------------------------------------------------------------

  lemma NeededOneMore(scenes: seq<Scene>, i: nat)
    requires i < |scenes|
    ensures Needed(scenes[..i + 1]) == Needed(scenes[..i]) + KeyTexts(scenes[i])
  {
    assert scenes[..i + 1][..i] == scenes[..i];
    hide KeyTexts;
  }

  lemma KeysAreTheTexts(keys: seq<string>, s: Scene)
    requires |keys| == |KeysOf(s)| && forall i :: 0 <= i < |keys| ==> keys[i] == Text(KeysOf(s)[i])
    ensures Elements(keys) == KeyTexts(s)
  {
    hide KeysOf, Text;
  }

  method NeededKeys(scenes: seq<Scene>) returns (need: set<string>)
    ensures need == Needed(scenes)
  {
    need := {};
    assert scenes[..0] == [];
    assert need == Needed(scenes[..0]);
    hide Needed, Elements, KeyTexts, KeysOf, Text;
    for i := 0 to |scenes|
      invariant need == Needed(scenes[..i])
    {
      var keys := BucketKeys(scenes[i]);
      KeysAreTheTexts(keys, scenes[i]);
      NeededOneMore(scenes, i);
      NoElements(keys);
      for j := 0 to |keys|
        invariant need == Needed(scenes[..i]) + Elements(keys[..j])
      {
        ElementsOfPrefix(keys, j);
        need := need + {keys[j]};
      }
      assert keys[..|keys|] == keys;
    }
    assert scenes[..|scenes|] == scenes;
  }

  lemma NoElements<T>(s: seq<T>)
    ensures Elements(s[..0]) == {}
  {
  }

  lemma DistinctOneMore(rs: seq<Release>, r: Release)
    ensures DistinctById(rs + [r]) ==
            if r.id in Ids(DistinctById(rs)) then DistinctById(rs) else DistinctById(rs) + [r]
    ensures Ids(DistinctById(rs) + [r]) == Ids(DistinctById(rs)) + {r.id}
  {
    assert (rs + [r])[..|rs|] == rs;
  }

  /** One bucket more: `out` and `seen` carry on from the buckets before it. */
  method CollectBucket(rows: seq<Release>, before: seq<Release>, seen0: set<int>, ghost met: seq<Release>)
    returns (out: seq<Release>, seen: set<int>)
    requires before == DistinctById(met) && seen0 == Ids(before)
    ensures out == DistinctById(met + rows) && seen == Ids(out)
  {
    hide DistinctById, Ids;
    out, seen := before, seen0;
    assert met + rows[..0] == met;
    for m := 0 to |rows|
      invariant out == DistinctById(met + rows[..m]) && seen == Ids(out)
    {
      DistinctOneMore(met + rows[..m], rows[m]);
      assert met + rows[..m + 1] == met + rows[..m] + [rows[m]];
      if rows[m].id in seen {
        continue;
      }
      seen := seen + {rows[m].id};
      out := out + [rows[m]];
    }
    assert rows[..|rows|] == rows;
  }

  lemma UnionOneMore(table: seq<StoredRelease>, keys: seq<Key>, j: nat)
    requires j < |keys|
    ensures Union(table, keys[..j + 1]) == Union(table, keys[..j]) + Rows(table, keys[j])
  {
    assert keys[..j + 1][..j] == keys[..j];
  }

  lemma FetchedBucket(table: seq<StoredRelease>, need: set<string>, s: Scene, j: nat)
    requires KeyTexts(s) <= need && j < |KeysOf(s)|
    ensures var k := Text(KeysOf(s)[j]); k in need && Buckets(table, need)[k] == Rows(table, KeysOf(s)[j])
  {
    KeyRoundTrip(KeysOf(s)[j]);
    assert Text(KeysOf(s)[j]) in KeyTexts(s);
  }

  /** Maps the fetched buckets back to one scene. */
  method Collect(results: Results, s: Scene, ghost table: seq<StoredRelease>, ghost need: set<string>)
    returns (out: seq<Release>)
    requires results == Buckets(table, need) && KeyTexts(s) <= need
    ensures out == SceneReleases(table, s)
  {
    hide RowsNamed, Rows;
    var seen: set<int> := {};
    out := [];
    var keys := BucketKeys(s);
    for j := 0 to |keys|
      invariant out == DistinctById(Union(table, KeysOf(s)[..j])) && seen == Ids(out)
    {
      FetchedBucket(table, need, s, j);
      out, seen := CollectBucket(results[keys[j]], out, seen, Union(table, KeysOf(s)[..j]));
      UnionOneMore(table, KeysOf(s), j);
    }
    assert KeysOf(s)[..|keys|] == KeysOf(s);
  }

  /** Every scene gets exactly its own releases, in their own order, whatever the other scenes
      and whatever order the keys were sent in, unless one of the requests goes unanswered. */
  method LookupBucketsBatch(server: Server, scenes: seq<Scene>)
    returns (r: Result<seq<seq<Release>>, ClientError>, ghost n: nat)
    modifies server
    ensures Sent(old(server.requests), server.requests, n)
    ensures r.Success? ==> n == RequestsFor(|Needed(scenes)|) && Answering(server.outage, |old(server.requests)|, n)
    ensures r.Success? ==>
              r.value == seq(|scenes|, i requires 0 <= i < |scenes| => SceneReleases(server.table, scenes[i]))
    ensures r.Failure? ==> 1 <= n <= RequestsFor(|Needed(scenes)|) && server.outage(|old(server.requests)| + n - 1)
    ensures r.Failure? ==> r.error == Unreachable
  {
    hide *;
    var need := NeededKeys(scenes);
    NeededAreKeyTexts(scenes);
    var fetched;
    fetched, n := FetchBuckets(server, need);
    match fetched {
      case Failure(error) => return Failure(error), n;
      case Success(results) =>
        var out := CollectAll(results, scenes, server.table, need);
        return Success(out), n;
    }
  }

  method CollectAll(results: Results, scenes: seq<Scene>, ghost table: seq<StoredRelease>, ghost need: set<string>)
    returns (out: seq<seq<Release>>)
    requires results == Buckets(table, need) && forall s :: s in scenes ==> KeyTexts(s) <= need
    ensures out == seq(|scenes|, i requires 0 <= i < |scenes| => SceneReleases(table, scenes[i]))
  {
    hide SceneReleases, KeyTexts, Buckets;
    out := [];
    for i := 0 to |scenes|
      invariant |out| == i && forall j :: 0 <= j < i ==> out[j] == SceneReleases(table, scenes[j])
    {
      var releases := Collect(results, scenes[i], table, need);
      out := out + [releases];
    }
  }

  /** One scene: always one request, as at most six keys fit in it. */
  method LookupBuckets(server: Server, s: Scene) returns (r: Result<seq<Release>, ClientError>)
    modifies server
    ensures Sent(old(server.requests), server.requests, 1)
    ensures r == if server.outage(|old(server.requests)|) then Failure(Unreachable)
                 else Success(SceneReleases(server.table, s))
  {
    OneSceneFitsOneRequest(s);
    var perScene, n := LookupBucketsBatch(server, [s]);
    match perScene
    case Success(all) => return Success(all[0]);
    case Failure(error) => return Failure(error);
  }

  lemma OneSceneFitsOneRequest(s: Scene)
    ensures RequestsFor(|Needed([s])|) == 1
  {
    var keys := KeysOf(s);
    assert [s][..0] == [] && Needed([s]) == KeyTexts(s) == Texts(keys);
    assert Text(keys[0]) in Texts(keys);
    FewTexts(keys);
  }

  lemma {:induction false} FewTexts(keys: seq<Key>)
    requires forall k :: k in keys ==> ValidKey(k)
    ensures |Texts(keys)| <= |keys|
  {
    if keys != [] {
      var init, last := keys[..|keys| - 1], keys[|keys| - 1];
      FewTexts(init);
      assert keys == init + [last];
      assert Texts(keys) == Texts(init) + {Text(last)};
    }
  }
}
