/** The counters of internal/api/stats.go. Requests add to counts in memory while any number of
    flushes move them to the database, each in steps that others may come between: swap keys out,
    then one atomic merge that succeeds or fails, then, after a failure, put the keys back.

    The same machine describes the lookup and page-view counters (swapped key by key) and the
    downloads per track and day (swapped all at once under the lock); only the latter ever lose
    counts, to deleted tracks and to the retention sweep.
 */
module Counters {

  /** An absent key counts zero. */
  type Counts<K(==)> = map<K, nat>

  function At<K>(c: Counts<K>, k: K): nat {
    if k in c then c[k] else 0
  }

  /** `c` with `from`'s counts of `ks` added. */
  function Pour<K>(c: Counts<K>, from: Counts<K>, ks: set<K>): Counts<K> {
    map k | k in c.Keys + ks :: At(c, k) + if k in ks then At(from, k) else 0
  }

  /** What stays behind. */
  function Drain<K>(c: Counts<K>, ks: set<K>): Counts<K> {
    map k | k in c :: if k in ks then 0 else c[k]
  }

  lemma PourAt<K>(c: Counts<K>, from: Counts<K>, ks: set<K>, k: K)
    ensures At(Pour(c, from, ks), k) == At(c, k) + if k in ks then At(from, k) else 0
  {
  }

  lemma DrainAt<K>(c: Counts<K>, ks: set<K>, k: K)
    ensures At(Drain(c, ks), k) == if k in ks then 0 else At(c, k)
  {
  }

  datatype Phase = Swapping | Failed | Done

  /** One flush: how far it got, and the counts it carries. */
  datatype Flight<K(==)> = Flight(phase: Phase, deltas: Counts<K>)

  datatype State<K(==)> = State(
    mem: Counts<K>, stored: Counts<K>, flights: seq<Flight<K>>,
    recorded: Counts<K>, lost: Counts<K>)

  function Nothing<K>(): State<K> {
    State(map[], map[], [], map[], map[])
  }

  datatype Step<K(==)> =
    | Add(k: K)                          // a request counts
    | Begin                              // a flush starts
    | Swap(f: nat, ks: set<K>)           // flush f takes keys out of memory
    | Merge(f: nat, skipped: set<K>)     // its transaction commits, skipping keys whose track is gone
    | Fail(f: nat)                       // its transaction fails
    | PutBack(f: nat, ks: set<K>)        // a failed flush returns keys to memory
    | Forget(ks: set<K>)                 // the retention sweep deletes stored rows

  predicate Possible<K>(s: State<K>, step: Step<K>) {
    match step
    case Swap(f, _) => f < |s.flights| && s.flights[f].phase.Swapping?
    case Merge(f, _) => f < |s.flights| && s.flights[f].phase.Swapping?
    case Fail(f) => f < |s.flights| && s.flights[f].phase.Swapping?
    case PutBack(f, _) => f < |s.flights| && s.flights[f].phase.Failed?
    case _ => true
  }

  /** A step that is not possible does nothing. */
  function Next<K>(s: State<K>, step: Step<K>): State<K> {
    if !Possible(s, step) then s
    else
      match step
      case Add(k) =>
        s.(mem := s.mem[k := At(s.mem, k) + 1], recorded := s.recorded[k := At(s.recorded, k) + 1])
      case Begin =>
        s.(flights := s.flights + [Flight(Swapping, map[])])
      case Swap(f, ks) =>
        s.(mem := Drain(s.mem, ks), flights := s.flights[f := Flight(Swapping, Pour(s.flights[f].deltas, s.mem, ks))])
      case Merge(f, skipped) =>
        var deltas := s.flights[f].deltas;
        s.(stored := Pour(s.stored, deltas, deltas.Keys - skipped), lost := Pour(s.lost, deltas, deltas.Keys * skipped),
           flights := s.flights[f := Flight(Done, map[])])
      case Fail(f) =>
        s.(flights := s.flights[f := s.flights[f].(phase := Failed)])
      case PutBack(f, ks) =>
        s.(mem := Pour(s.mem, s.flights[f].deltas, ks),
           flights := s.flights[f := Flight(Failed, Drain(s.flights[f].deltas, ks))])
      case Forget(ks) =>
        s.(stored := Drain(s.stored, ks), lost := Pour(s.lost, s.stored, ks))
  }

  function Run<K>(s: State<K>, steps: seq<Step<K>>): State<K> {
    if steps == [] then s else Next(Run(s, steps[..|steps| - 1]), steps[|steps| - 1])
  }

  function InFlight<K>(flights: seq<Flight<K>>, k: K): nat {
    if flights == [] then 0
    else InFlight(flights[..|flights| - 1], k) + At(flights[|flights| - 1].deltas, k)
  }

  ghost predicate Balanced<K>(s: State<K>, k: K) {
    At(s.recorded, k) == At(s.stored, k) + At(s.mem, k) + InFlight(s.flights, k) + At(s.lost, k)
  }

  // -- Conservation ----------------------------------------------------------

  lemma {:induction false} InFlightAfterUpdate<K>(flights: seq<Flight<K>>, f: nat, flight: Flight<K>, k: K)
    requires f < |flights|
    ensures InFlight(flights[f := flight], k) == InFlight(flights, k) - At(flights[f].deltas, k) + At(flight.deltas, k)
  {
    var init, last := flights[..|flights| - 1], flights[|flights| - 1];
    if f < |init| {
      InFlightAfterUpdate(init, f, flight, k);
      assert flights[f := flight][..|flights| - 1] == init[f := flight];
    } else {
      assert flights[f := flight][..|flights| - 1] == init;
    }
  }

  lemma InFlightOfMore<K>(flights: seq<Flight<K>>, k: K)
    ensures InFlight(flights + [Flight(Swapping, map[])], k) == InFlight(flights, k)
  {
    assert (flights + [Flight(Swapping, map[])])[..|flights|] == flights;
  }

  lemma SwapEffect<K>(s: State<K>, f: nat, ks: set<K>, k: K)
    requires Possible(s, Swap(f, ks))
    ensures var t, taken := Next(s, Swap(f, ks)), if k in ks then At(s.mem, k) else 0;
            && At(t.mem, k) == At(s.mem, k) - taken
            && InFlight(t.flights, k) == InFlight(s.flights, k) + taken
  {
    DrainAt(s.mem, ks, k);
    PourAt(s.flights[f].deltas, s.mem, ks, k);
    InFlightAfterUpdate(s.flights, f, Next(s, Swap(f, ks)).flights[f], k);
    hide InFlight, Pour, Drain;
  }

  lemma MergeEffect<K>(s: State<K>, f: nat, skipped: set<K>, k: K)
    requires Possible(s, Merge(f, skipped))
    ensures var t, landed := Next(s, Merge(f, skipped)), At(s.flights[f].deltas, k);
            && At(t.stored, k) == At(s.stored, k) + (if k in skipped then 0 else landed)
            && At(t.lost, k) == At(s.lost, k) + (if k in skipped then landed else 0)
            && InFlight(t.flights, k) == InFlight(s.flights, k) - landed
  {
    var deltas := s.flights[f].deltas;
    PourAt(s.stored, deltas, deltas.Keys - skipped, k);
    PourAt(s.lost, deltas, deltas.Keys * skipped, k);
    InFlightAfterUpdate(s.flights, f, Next(s, Merge(f, skipped)).flights[f], k);
    hide InFlight, Pour;
  }

  lemma PutBackEffect<K>(s: State<K>, f: nat, ks: set<K>, k: K)
    requires Possible(s, PutBack(f, ks))
    ensures var t, back := Next(s, PutBack(f, ks)), if k in ks then At(s.flights[f].deltas, k) else 0;
            && At(t.mem, k) == At(s.mem, k) + back
            && InFlight(t.flights, k) == InFlight(s.flights, k) - back
  {
    PourAt(s.mem, s.flights[f].deltas, ks, k);
    DrainAt(s.flights[f].deltas, ks, k);
    InFlightAfterUpdate(s.flights, f, Next(s, PutBack(f, ks)).flights[f], k);
    hide InFlight, Pour, Drain;
  }

  lemma FailEffect<K>(s: State<K>, f: nat, k: K)
    requires Possible(s, Fail(f))
    ensures InFlight(Next(s, Fail(f)).flights, k) == InFlight(s.flights, k)
  {
    InFlightAfterUpdate(s.flights, f, Next(s, Fail(f)).flights[f], k);
    hide InFlight;
  }

  lemma ForgetEffect<K>(s: State<K>, ks: set<K>, k: K)
    ensures var t := Next(s, Forget(ks)); At(t.stored, k) + At(t.lost, k) == At(s.stored, k) + At(s.lost, k)
  {
    DrainAt(s.stored, ks, k);
    PourAt(s.lost, s.stored, ks, k);
    hide Pour, Drain;
  }

  /** One step, seen through every place that holds counts of `k`. */
  lemma StepEffect<K>(s: State<K>, step: Step<K>, k: K)
    ensures var t := Next(s, step);
            && At(t.recorded, k) >= At(s.recorded, k)
            && At(t.stored, k) + At(t.mem, k) + InFlight(t.flights, k) + At(t.lost, k) - At(t.recorded, k)
               == At(s.stored, k) + At(s.mem, k) + InFlight(s.flights, k) + At(s.lost, k) - At(s.recorded, k)
            && ((step.Merge? && k !in step.skipped) || (!step.Merge? && !step.Forget?) ==>
                  At(t.stored, k) >= At(s.stored, k) && At(t.lost, k) == At(s.lost, k))
            && (At(t.stored, k) > At(s.stored, k) ==> InFlight(s.flights, k) > 0)
            && (InFlight(t.flights, k) > InFlight(s.flights, k) ==> step.Swap? && k in step.ks)
  {
    InFlightOfMore(s.flights, k);
    if Possible(s, step) {
      match step
      case Add(_) =>
      case Begin =>
      case Swap(f, ks) => SwapEffect(s, f, ks, k);
      case Merge(f, skipped) => MergeEffect(s, f, skipped, k); InFlightIncludes(s.flights, f, k);
      case Fail(f) => FailEffect(s, f, k);
      case PutBack(f, ks) => PutBackEffect(s, f, ks, k);
      case Forget(ks) => ForgetEffect(s, ks, k); DrainAt(s.stored, ks, k);
    }
    hide InFlight, Pour, Drain;
  }

  /** No step of any request, flush or sweep changes what the recorded count adds up from. */
  lemma StepConserves<K>(s: State<K>, step: Step<K>, k: K)
    requires Balanced(s, k)
    ensures Balanced(Next(s, step), k)
  {
    StepEffect(s, step, k);
    hide InFlight, Next;
  }

  /** Over every interleaving: recorded = stored + in memory + in flight + lost. */
  lemma {:induction false} CountsAreConserved<K>(s: State<K>, steps: seq<Step<K>>, k: K)
    requires Balanced(s, k)
    ensures Balanced(Run(s, steps), k)
  {
    if steps != [] {
      CountsAreConserved(s, steps[..|steps| - 1], k);
      StepConserves(Run(s, steps[..|steps| - 1]), steps[|steps| - 1], k);
    }
  }

  lemma {:induction false} RunSplits<K>(s: State<K>, a: seq<Step<K>>, b: seq<Step<K>>)
    ensures Run(s, a + b) == Run(Run(s, a), b)
  {
    if b == [] {
      assert a + b == a;
    } else {
      RunSplits(s, a, b[..|b| - 1]);
      assert (a + b)[..|a + b| - 1] == a + b[..|b| - 1];
    }
  }

  // -- ViewCounts --------------------------------------------------------------

  /** Steps of the lookup and page-view counters: nothing skips or deletes their rows. */
  ghost predicate KeepsRows<K>(steps: seq<Step<K>>) {
    forall i :: 0 <= i < |steps| ==> !steps[i].Forget? && (steps[i].Merge? ==> steps[i].skipped == {})
  }

  /** What a reader of `k` reports who sees the database at `then` and memory at `now`. */
  function Reported<K>(earlier: State<K>, now: State<K>, k: K): nat {
    At(earlier.stored, k) + At(now.mem, k)
  }

  lemma {:induction false} StoredOnlyGrows<K>(s: State<K>, steps: seq<Step<K>>, k: K)
    requires KeepsRows(steps)
    ensures At(s.stored, k) <= At(Run(s, steps).stored, k) && At(s.lost, k) == At(Run(s, steps).lost, k)
    ensures At(s.recorded, k) <= At(Run(s, steps).recorded, k)
  {
    if steps != [] {
      var init, last := steps[..|steps| - 1], steps[|steps| - 1];
      StoredOnlyGrows(s, init, k);
      assert !last.Forget? && (last.Merge? ==> last.skipped == {});
      StepEffect(Run(s, init), last, k);
      hide Next;
    }
  }

  /** A flush overlaps the reading if it carries `k` when the reading starts or takes `k` during it. */
  ghost predicate NoFlushOverlaps<K>(s: State<K>, steps: seq<Step<K>>, k: K) {
    InFlight(s.flights, k) == 0 && forall i :: 0 <= i < |steps| ==> !(steps[i].Swap? && k in steps[i].ks)
  }

  lemma {:induction false} NothingTakenNothingStored<K>(s: State<K>, steps: seq<Step<K>>, k: K)
    requires KeepsRows(steps) && NoFlushOverlaps(s, steps, k)
    ensures At(Run(s, steps).stored, k) == At(s.stored, k) && InFlight(Run(s, steps).flights, k) == 0
  {
    if steps != [] {
      var init, last := steps[..|steps| - 1], steps[|steps| - 1];
      var t := Run(s, init);
      NothingTakenNothingStored(s, init, k);
      assert !last.Forget? && !(last.Swap? && k in last.ks);
      StoredOnlyGrows(t, [last], k);
      StepEffect(t, last, k);
      assert [last][..0] == [];
      hide Next;
    }
  }

  lemma {:induction false} InFlightIncludes<K>(flights: seq<Flight<K>>, f: nat, k: K)
    requires f < |flights|
    ensures At(flights[f].deltas, k) <= InFlight(flights, k)
  {
    if f < |flights| - 1 {
      InFlightIncludes(flights[..|flights| - 1], f, k);
    }
  }

  /** From an empty node, whatever runs before and during the reading: the report never exceeds
      the truth, it is exact exactly when no count of `k` was merged meanwhile or is on its way,
      and it is exact whenever no flush overlaps it. */
  lemma ViewCountsNeverOverCount<K>(before: seq<Step<K>>, during: seq<Step<K>>, k: K)
    requires KeepsRows(before) && KeepsRows(during)
    ensures var earlier := Run(Nothing(), before);
            var now := Run(earlier, during);
            && Reported(earlier, now, k) <= At(now.recorded, k)
            && (Reported(earlier, now, k) == At(now.recorded, k)
                <==> At(earlier.stored, k) == At(now.stored, k) && InFlight(now.flights, k) == 0)
            && (NoFlushOverlaps(earlier, during, k) ==> Reported(earlier, now, k) == At(now.recorded, k))
  {
    var earlier := Run(Nothing(), before);
    CountsAreConserved(Nothing(), before, k);
    CountsAreConserved(earlier, during, k);
    StoredOnlyGrows(Nothing(), before, k);
    StoredOnlyGrows(earlier, during, k);
    if NoFlushOverlaps(earlier, during, k) {
      NothingTakenNothingStored(earlier, during, k);
    }
  }

  lemma RunOneMore<K>(s: State<K>, steps: seq<Step<K>>, step: Step<K>)
    ensures Run(s, steps + [step]) == Next(Run(s, steps), step)
  {
    assert (steps + [step])[..|steps|] == steps;
  }

  lemma RunOfOne<K>(s: State<K>, step: Step<K>)
    ensures Run(s, [step]) == Next(s, step)
  {
    assert [step][..0] == [];
  }

  lemma RunOfTwo<K>(s: State<K>, a: Step<K>, b: Step<K>)
    ensures Run(s, [a, b]) == Next(Next(s, a), b)
  {
    assert [a, b][..1] == [a];
    RunOfOne(s, a);
  }

  /** A flush as far as its merge. */
  lemma TakenAway<K>(s: State<K>, ks: set<K>)
    requires s.flights == []
    ensures Run(s, [Begin, Swap(0, ks)]) ==
            s.(mem := Drain(s.mem, ks), flights := [Flight(Swapping, Pour(map[], s.mem, ks))])
  {
    RunOfTwo(s, Begin, Swap(0, ks));
    hide Run;
  }

  /** A whole flush between the two reads hides everything memory held at the first. */
  lemma WholeFlushBetweenReads<K>(s: State<K>, k: K)
    requires s.flights == []
    ensures var during := [Begin, Swap(0, {k})] + [Merge(0, {})];
            KeepsRows(during) && Reported(s, Run(s, during), k) == At(s.stored, k)
  {
    TakenAway(s, {k});
    RunOneMore(s, [Begin, Swap(0, {k})], Merge(0, {}));
    DrainAt(s.mem, {k}, k);
    hide Run, Pour, Drain, At;
  }

  /** So exactness does need that no flush overlaps: one view, recorded before both reads, is missed. */
  lemma OverlappingFlushUnderCounts()
    ensures exists before: seq<Step<string>>, during: seq<Step<string>>, k: string ::
              && KeepsRows(before) && KeepsRows(during)
              && At(Run(Nothing(), before).recorded, k) == 1
              && Reported(Run(Nothing(), before), Run(Run(Nothing(), before), during), k) == 0
  {
    var k := "views.index";
    var before, during := [Add(k)], [Begin, Swap(0, {k})] + [Merge(0, {})];
    RunOfOne(Nothing(), Add(k));
    var s := Run(Nothing(), before);
    WholeFlushBetweenReads(s, k);
    assert KeepsRows(before);
    assert At(s.recorded, k) == 1 && At(s.stored, k) == 0;
    hide Run, Next, Reported, At;
  }

  /** A failed flush leaves every count where it was when it began, plus what was added since. */
  lemma FailedFlushLosesNothing<K>(s: State<K>, taken: set<K>, added: seq<K>, k: K)
    requires s.flights == []
    ensures var t := Run(s, [Begin, Swap(0, taken)] + [Fail(0)] + Adds(added) + [PutBack(0, taken)]);
            At(t.stored, k) == At(s.stored, k) && At(t.mem, k) == At(s.mem, k) + multiset(added)[k]
  {
    var head: seq<Step<K>> := [Begin, Swap(0, taken)] + [Fail(0)];
    TakenAway(s, taken);
    RunOneMore(s, [Begin, Swap(0, taken)], Fail(0));
    var failed := Run(s, head);
    assert failed == s.(mem := Drain(s.mem, taken), flights := [Flight(Failed, Pour(map[], s.mem, taken))]);
    RunSplits(s, head, Adds(added));
    AddsOnlyAdd(failed, added, k);
    RunOneMore(s, head + Adds(added), PutBack(0, taken));
    hide Run, Adds;
    DrainAt(s.mem, taken, k);
    PourAt(map[], s.mem, taken, k);
    PutBackEffect(Run(failed, Adds(added)), 0, taken, k);
    hide Pour, Drain, InFlight, Next, At;
  }

  function Adds<K>(added: seq<K>): seq<Step<K>> {
    if added == [] then [] else Adds(added[..|added| - 1]) + [Add(added[|added| - 1])]
  }

  lemma {:induction false} AddsOnlyAdd<K>(s: State<K>, added: seq<K>, k: K)
    ensures var t := Run(s, Adds(added));
            && At(t.mem, k) == At(s.mem, k) + multiset(added)[k]
            && t.stored == s.stored && t.flights == s.flights
  {
    if added != [] {
      var init, last := added[..|added| - 1], added[|added| - 1];
      AddsOnlyAdd(s, init, k);
      RunOneMore(s, Adds(init), Add(last));
      assert added == init + [last];
    }
  }

  // -- The counters themselves -------------------------------------------------

  /** How many on which UTC day, and nothing finer. */
  datatype DownloadDay = DownloadDay(trackId: int, day: int)

  const SECONDS_A_DAY := 86_400

  /** The tables flushes write to. A merge is one transaction and may fail for its own reasons. */
  class Database {
    var counters: Counts<string>
    var days: Counts<DownloadDay>
    var tracks: set<int>

    /** One upsert a key in one transaction; any of them, or the commit, may fail and roll it back. */
    method MergeCounters(deltas: Counts<string>) returns (ok: bool)
      modifies this`counters
      ensures !ok ==> counters == old(counters)
      ensures ok ==> Merged(old(counters), counters, deltas, {})
    {
      if forall k :: k in deltas ==> deltas[k] == 0 {
        return true;
      }
      var tx: Counts<string> := counters;
      var pending := deltas.Keys;
      while pending != {}
        invariant pending <= deltas.Keys && PartMerged(counters, tx, deltas, {}, pending)
        decreases pending
      {
        var key :| key in pending;
        if deltas[key] != 0 {
          var fails: bool := *;
          if fails {
            return false;
          }
          tx := tx[key := At(tx, key) + deltas[key]];
        }
        pending := pending - {key};
      }
      ok := *;
      if ok {
        counters := tx;
      }
    }

    function Gone(deltas: Counts<DownloadDay>): set<DownloadDay>
      reads this
    {
      set k | k in deltas && k.trackId !in tracks
    }

    /** The same, inserting nothing for a track that is gone. */
    method MergeDownloadDays(deltas: Counts<DownloadDay>) returns (ok: bool)
      modifies this`days
      ensures !ok ==> days == old(days)
      ensures ok ==> Merged(old(days), days, deltas, Gone(deltas))
    {
      if forall k :: k in deltas ==> deltas[k] == 0 {
        return true;
      }
      var tx: Counts<DownloadDay> := days;
      var pending := deltas.Keys;
      while pending != {}
        invariant pending <= deltas.Keys && PartMerged(days, tx, deltas, Gone(deltas), pending)
        decreases pending
      {
        var key :| key in pending;
        if deltas[key] != 0 {
          var fails: bool := *;
          if fails {
            return false;
          }
          if key.trackId in tracks {
            tx := tx[key := At(tx, key) + deltas[key]];
          }
        }
        pending := pending - {key};
      }
      ok := *;
      if ok {
        days := tx;
      }
    }
  }

  /** All of `deltas` but `gone` was added, and no row was made for nothing. */
  ghost predicate Merged<K(!new)>(before: Counts<K>, after: Counts<K>, deltas: Counts<K>, gone: set<K>) {
    && (forall k :: At(after, k) == At(before, k) + if k in gone then 0 else At(deltas, k))
    && (forall k :: k in after <==> k in before || (k !in gone && At(deltas, k) != 0))
  }

  /** So far for all but the `pending` keys. */
  ghost predicate PartMerged<K(!new)>(before: Counts<K>, after: Counts<K>, deltas: Counts<K>, gone: set<K>,
                               pending: set<K>) {
    && (forall k :: At(after, k) == At(before, k) + if k in gone || k in pending then 0 else At(deltas, k))
    && (forall k :: k in after <==> k in before || (k !in gone && k !in pending && At(deltas, k) != 0))
  }

  /** What an undisturbed flush of `ks` is in steps. */
  function FlushSteps<K>(ok: bool, ks: set<K>, gone: set<K>): seq<Step<K>> {
    [Begin, Swap(0, ks)] + if ok then [Merge(0, gone)] else [Fail(0), PutBack(0, ks)]
  }

  ghost predicate SameCounts<K(!new)>(a: Counts<K>, b: Counts<K>) {
    forall k :: At(a, k) == At(b, k)
  }

  /** `mem` and `stored` are where the steps lead from `mem0` and `stored0`. */
  ghost predicate Follows<K(!new)>(mem0: Counts<K>, stored0: Counts<K>, steps: seq<Step<K>>, mem: Counts<K>,
                            stored: Counts<K>) {
    var t := Run(State(mem0, stored0, [], map[], map[]), steps);
    SameCounts(t.mem, mem) && SameCounts(t.stored, stored)
  }

  lemma FlushFollows<K(!new)>(mem0: Counts<K>, stored0: Counts<K>, ok: bool, gone: set<K>, mem: Counts<K>,
                       stored: Counts<K>)
    requires forall k :: At(mem, k) == if ok then 0 else At(mem0, k)
    requires forall k :: At(stored, k) == At(stored0, k) + if ok && k !in gone then At(mem0, k) else 0
    ensures Follows(mem0, stored0, FlushSteps(ok, mem0.Keys, gone), mem, stored)
  {
    var s: State<K> := State(mem0, stored0, [], map[], map[]);
    forall k {
      FlushOutcome(s, ok, gone, k);
    }
    hide Run, At, FlushSteps;
  }

  lemma FlushOutcome<K>(s: State<K>, ok: bool, gone: set<K>, k: K)
    requires s.flights == []
    ensures var t := Run(s, FlushSteps(ok, s.mem.Keys, gone));
            && At(t.mem, k) == (if ok then 0 else At(s.mem, k))
            && At(t.stored, k) == At(s.stored, k) + if ok && k !in gone then At(s.mem, k) else 0
  {
    var ks := s.mem.Keys;
    if ok {
      TakenAway(s, ks);
      RunOneMore(s, [Begin, Swap(0, ks)], Merge(0, gone));
      var taken := Run(s, [Begin, Swap(0, ks)]);
      DrainAt(s.mem, ks, k);
      PourAt(map[], s.mem, ks, k);
      MergeEffect(taken, 0, gone, k);
      hide Run, Pour, Drain, InFlight;
    } else {
      FailedFlushLosesNothing(s, ks, [], k);
      assert [Begin, Swap(0, ks)] + [Fail(0)] + Adds([]) + [PutBack(0, ks)] == FlushSteps(ok, ks, gone);
      hide Run;
    }
  }

  class Stats {
    var counters: Counts<string>
    var downloads: Counts<DownloadDay>
    const db: Database

    constructor (db: Database)
      ensures this.db == db && SameCounts(counters, map[]) && downloads == map[]
    {
      this.db, counters, downloads := db, map[], map[];
    }

    method Record(lookups: string, hits: string, hit: bool)
      requires lookups != hits
      modifies this`counters
      ensures forall k :: At(counters, k) == At(old(counters), k) + if k == lookups || (hit && k == hits) then 1 else 0
    {
      counters := counters[lookups := At(counters, lookups) + 1];
      if hit {
        counters := counters[hits := At(counters, hits) + 1];
      }
    }

    /** Swaps every counter out, one after another. */
    method SwapAll() returns (deltas: Counts<string>)
      modifies this`counters
      ensures SameCounts(counters, map[]) && SameCounts(deltas, old(counters))
      ensures forall k :: k in deltas ==> deltas[k] != 0
    {
      deltas := map[];
      var pending := counters.Keys;
      while pending != {}
        invariant pending <= old(counters).Keys == counters.Keys
        invariant forall k :: At(counters, k) == if k in pending then At(old(counters), k) else 0
        invariant forall k :: At(deltas, k) == if k in pending then 0 else At(old(counters), k)
        invariant forall k :: k in deltas ==> deltas[k] != 0
        decreases pending
      {
        var key :| key in pending;
        var v := counters[key];
        counters := counters[key := 0];
        if v != 0 {
          deltas := deltas[key := v];
        }
        pending := pending - {key};
      }
    }

    /** Merges what it swapped out, and puts it back if that fails. */
    method Flush() returns (ok: bool)
      modifies this`counters, db`counters
      ensures Follows(old(counters), old(db.counters), FlushSteps(ok, old(counters).Keys, {}), counters, db.counters)
      ensures SameCounts(counters, if ok then map[] else old(counters))
    {
      ghost var mem, stored := counters, db.counters;
      var deltas := SwapAll();
      ok := true;
      if |deltas| > 0 {
        ok := db.MergeCounters(deltas);
        if !ok {
          ghost var swapped := counters;
          counters := Pour(counters, deltas, deltas.Keys);
          forall k ensures At(counters, k) == At(mem, k) {
            PourAt(swapped, deltas, deltas.Keys, k);
          }
        }
      }
      forall k ensures At(db.counters, k) == At(stored, k) + if ok && k !in {} then At(mem, k) else 0 {
        assert At(deltas, k) == At(mem, k);
      }
      hide Follows, FlushSteps, Pour;
      FlushFollows(mem, stored, ok, {}, counters, db.counters);
    }

    method AddDownload(trackId: int, now: int)
      modifies this`downloads
      ensures forall k :: At(downloads, k) ==
                          At(old(downloads), k) + if k == DownloadDay(trackId, now / 86_400) then 1 else 0
    {
      var key := DownloadDay(trackId, now / SECONDS_A_DAY);
      downloads := downloads[key := At(downloads, key) + 1];
    }

    /** Takes the whole map at once; a failed merge puts the counts back. */
    method FlushDownloads() returns (ok: bool)
      modifies this`downloads, db`days
      ensures Follows(old(downloads), old(db.days),
                      FlushSteps(ok, old(downloads).Keys, db.Gone(old(downloads))), downloads, db.days)
      ensures SameCounts(downloads, if ok then map[] else old(downloads))
    {
      var deltas := downloads;
      downloads := map[];
      ok := true;
      if |deltas| > 0 {
        ok := db.MergeDownloadDays(deltas);
        if !ok {
          downloads := Pour(downloads, deltas, deltas.Keys);
        }
      } else {
        assert deltas == map[];
      }
      FlushFollows(deltas, old(db.days), ok, db.Gone(deltas), downloads, db.days);
    }
  }
}
