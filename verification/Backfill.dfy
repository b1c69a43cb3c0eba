/** The stash-box sweep: StashBoxSweepCandidates in internal/store/stashbox_sweep.go and
    runBackfill in cmd/moansubs/stashbox.go. What the box answers, when the context is cancelled
    and when recording fails are parameters, numbered by attempt and by record.
 */
module Backfill {
  import opened Wrappers

  datatype Outcome = Fingerprint | Proposed | NoMatch | Errored | Skipped

  datatype Reply = Answer(outcome: Outcome) | Unauthorized | RateLimited | OtherError

  datatype World = World(reply: nat -> Reply, cancelled: nat -> bool, recordFails: nat -> bool) {
    /** backfillOne answers with a match, a proposal or a miss. */
    ghost predicate Valid() {
      forall a :: reply(a).Answer? ==> reply(a).outcome in {Fingerprint, Proposed, NoMatch}
    }
  }

  datatype Options = Options(skip: set<int>, maxRetries: int, dryRun: bool) {
    function MaxTries(): nat {
      if maxRetries < 0 then 1 else 1 + maxRetries
    }
  }

  datatype Totals = Totals(fingerprint: nat, proposed: nat, none: nat, errored: nat, skipped: nat) {
    function Sum(): nat {
      fingerprint + proposed + none + errored + skipped
    }
  }

  datatype Stop = KeyRejected | RateLimitHeld(retries: int) | Cancelled | RecordFailed

  type Log = seq<(int, Outcome)>

  function Count(outcomes: seq<Outcome>, o: Outcome): nat {
    multiset(outcomes)[o]
  }

  function Tally(outcomes: seq<Outcome>): Totals {
    Totals(Count(outcomes, Outcome.Fingerprint), Count(outcomes, Proposed), Count(outcomes, NoMatch),
           Count(outcomes, Errored), Count(outcomes, Skipped))
  }

  function Counted(st: Totals, o: Outcome): (r: Totals)
    ensures r.Sum() == st.Sum() + 1
  {
    match o
    case Fingerprint => st.(fingerprint := st.fingerprint + 1)
    case Proposed => st.(proposed := st.proposed + 1)
    case NoMatch => st.(none := st.none + 1)
    case Errored => st.(errored := st.errored + 1)
    case Skipped => st.(skipped := st.skipped + 1)
  }

  lemma TallyOneMore(outcomes: seq<Outcome>, o: Outcome)
    ensures Tally(outcomes + [o]) == Counted(Tally(outcomes), o)
  {
    assert multiset(outcomes + [o]) == multiset(outcomes) + multiset{o};
  }

  /** What became of one candidate: the attempts from `first` on, `tries` of them. */
  datatype Trial = Trial(first: nat, tries: nat, outcome: Outcome)

  ghost predicate AllLimited(w: World, first: nat, n: nat) {
    forall a :: first <= a < first + n ==> w.reply(a).RateLimited?
  }

  /** A skipped candidate is not asked about; any other is asked again after every rate limit, at
      most maxRetries times, until an answer or an error settles it. */
  ghost predicate Settles(w: World, opts: Options, id: int, t: Trial) {
    if id in opts.skip then t.tries == 0 && t.outcome == Skipped
    else
      && 1 <= t.tries <= opts.MaxTries()
      && AllLimited(w, t.first, t.tries - 1)
      && (match w.reply(t.first + t.tries - 1)
          case Answer(o) => t.outcome == o
          case OtherError => t.outcome == Errored
          case _ => false)
  }

  /** The trials settled the first candidates one after another, using the attempts before `next`. */
  ghost predicate Progress(w: World, opts: Options, cands: seq<int>, trials: seq<Trial>, next: nat)
    decreases |trials|
  {
    if trials == [] then next == 0
    else
      var last := trials[|trials| - 1];
      && |trials| <= |cands| && Settles(w, opts, cands[|trials| - 1], last) && next == last.first + last.tries
      && Progress(w, opts, cands, trials[..|trials| - 1], last.first)
  }

  function Outcomes(trials: seq<Trial>): seq<Outcome> {
    seq(|trials|, i requires 0 <= i < |trials| => trials[i].outcome)
  }

  /** One record per settled candidate, in order. */
  function Records(cands: seq<int>, trials: seq<Trial>): Log
    requires |trials| <= |cands|
  {
    seq(|trials|, i requires 0 <= i < |trials| => (cands[i], trials[i].outcome))
  }

  lemma OneMoreTrial(w: World, opts: Options, cands: seq<int>, trials: seq<Trial>, t: Trial)
    requires Progress(w, opts, cands, trials, t.first) && |trials| < |cands| && Settles(w, opts, cands[|trials|], t)
    ensures Progress(w, opts, cands, trials + [t], t.first + t.tries)
    ensures Records(cands, trials + [t]) == Records(cands, trials) + [(cands[|trials|], t.outcome)]
    ensures Outcomes(trials + [t]) == Outcomes(trials) + [t.outcome]
    ensures Records(cands, trials + [t])[..|trials|] == Records(cands, trials)
  {
    assert (trials + [t])[..|trials|] == trials;
  }

  lemma LimitedAgain(w: World, first: nat, n: nat)
    requires AllLimited(w, first, n) && w.reply(first + n).RateLimited?
    ensures AllLimited(w, first, n + 1)
  {
  }

  lemma Settled(w: World, opts: Options, id: int, t: Trial)
    requires if id in opts.skip then t.tries == 0 && t.outcome == Skipped
             else 1 <= t.tries <= opts.MaxTries() && AllLimited(w, t.first, t.tries - 1)
                  && w.reply(t.first + t.tries - 1) == if t.outcome == Errored then OtherError else Answer(t.outcome)
    ensures Settles(w, opts, id, t)
  {
  }

  /** The books balance: the settled candidates are the first ones, in order; every one of them is
      counted once; and outside dry runs every one is recorded once, with its own outcome. */
  ghost predicate Balanced(w: World, opts: Options, cands: seq<int>, trials: seq<Trial>, next: nat, st: Totals,
                           log: Log) {
    && |trials| <= |cands| && Progress(w, opts, cands, trials, next)
    && st == Tally(Outcomes(trials)) && st.Sum() == |trials|
    && log == if opts.dryRun then [] else Records(cands, trials)
  }

  lemma NothingSettled(w: World, opts: Options, cands: seq<int>, trials: seq<Trial>)
    requires trials == []
    ensures Balanced(w, opts, cands, trials, 0, Totals(0, 0, 0, 0, 0), [])
  {
    hide Progress, Outcomes, Records, Tally;
    NothingProgressed(w, opts, cands, trials);
    NothingRecorded(cands, trials);
    NothingTallied(Outcomes(trials));
  }

  lemma NothingProgressed(w: World, opts: Options, cands: seq<int>, trials: seq<Trial>)
    requires trials == []
    ensures Progress(w, opts, cands, trials, 0)
  {
    hide Settles;
  }

  lemma NothingRecorded(cands: seq<int>, trials: seq<Trial>)
    requires trials == []
    ensures Outcomes(trials) == [] && Records(cands, trials) == []
  {
  }

  lemma NothingTallied(outcomes: seq<Outcome>)
    requires outcomes == []
    ensures Tally(outcomes) == Totals(0, 0, 0, 0, 0)
  {
  }

  lemma NotLimitedYet(w: World)
    ensures forall first :: AllLimited(w, first, 0)
  {
  }

  lemma OneMoreSettled(w: World, opts: Options, cands: seq<int>, trials: seq<Trial>, t: Trial, st: Totals, log: Log)
    requires Balanced(w, opts, cands, trials, t.first, st, log)
    requires |trials| < |cands| && Settles(w, opts, cands[|trials|], t)
    ensures Balanced(w, opts, cands, trials + [t], t.first + t.tries, Counted(st, t.outcome),
                     if opts.dryRun then log else log + [(cands[|trials|], t.outcome)])
  {
    OneMoreTrial(w, opts, cands, trials, t);
    TallyOneMore(Outcomes(trials), t.outcome);
    hide Progress, Settles, Outcomes, Records, Tally;
  }

  /** Why the sweep stopped while asking about a candidate: `pending` attempts from `next` on. */
  ghost predicate Stopped(w: World, opts: Options, log: Log, next: nat, pending: nat, stop: Stop) {
    match stop
    case KeyRejected => pending >= 1 && AllLimited(w, next, pending - 1) && w.reply(next + pending - 1).Unauthorized?
    case RateLimitHeld(retries) => retries == opts.maxRetries && pending == opts.MaxTries() &&
        AllLimited(w, next, pending)
    case Cancelled => AllLimited(w, next, pending) && w.cancelled(next + pending)
    case RecordFailed => !opts.dryRun && w.recordFails(|log|)
  }

  /** A whole sweep: what was settled, what was left hanging when it stopped, and the record that
      failed, if one did. */
  ghost predicate Accounts(w: World, opts: Options, cands: seq<int>, st: Totals, log: Log, stop: Option<Stop>,
                           trials: seq<Trial>, next: nat, pending: nat, unrecorded: Log)
  {
    && Balanced(w, opts, cands, trials, next, st, log + unrecorded)
    && |unrecorded| == (if stop == Some(RecordFailed) then 1 else 0)
    && (stop.None? ==> |trials| == |cands|)
    && (stop.Some? ==> Stopped(w, opts, log, next, pending, stop.value))
    && (stop.Some? && !stop.value.RecordFailed? ==> |trials| < |cands|)
  }

  lemma AllSettled(w: World, opts: Options, cands: seq<int>, trials: seq<Trial>, next: nat, st: Totals, log: Log)
    requires Balanced(w, opts, cands, trials, next, st, log) && |trials| == |cands|
    ensures st.Sum() == |cands| && |log| == if opts.dryRun then 0 else |cands|
    ensures forall i :: 0 <= i < |log| ==> log[i].0 == cands[i]
  {
  }

  /** Terminates, since every round settles a candidate or uses up one of its retries, and accounts
      for every candidate. A stop keeps what was settled before it; only a failing record leaves
      the candidate it was for counted but not recorded. */
  method RunBackfill(w: World, cands: seq<int>, opts: Options) returns (st: Totals, log: Log, stop: Option<Stop>)
    requires w.Valid()
    ensures exists trials, next, pending, unrecorded ::
              Accounts(w, opts, cands, st, log, stop, trials, next, pending, unrecorded)
    ensures stop.None? ==> st.Sum() == |cands| && |log| == if opts.dryRun then 0 else |cands|
    ensures stop.None? ==> forall i :: 0 <= i < |log| ==> log[i].0 == cands[i]
  {
    hide Balanced, Settles, Counted, AllLimited;
    st, log, stop := Totals(0, 0, 0, 0, 0), [], None;
    ghost var trials: seq<Trial>, next: nat, pending: nat := [], 0, 0;
    NothingSettled(w, opts, cands, trials);
    NotLimitedYet(w);
    var i, retries, attempt := 0, 0, 0;
    while i < |cands|
      invariant 0 <= i == |trials| <= |cands| && stop.None?
      invariant Balanced(w, opts, cands, trials, next, st, log)
      invariant attempt == next + pending && retries == pending < opts.MaxTries() && AllLimited(w, next, pending)
      invariant i < |cands| && pending > 0 ==> cands[i] !in opts.skip
      decreases |cands| - i, opts.maxRetries - retries
    {
      assert log + [] == log;
      var id := cands[i];
      var outcome := Skipped;
      if id !in opts.skip {
        if (i > 0 || retries > 0) && w.cancelled(attempt) {
          stop := Some(Cancelled);
          assert Accounts(w, opts, cands, st, log, stop, trials, next, pending, []);
          return;
        }
        var reply := w.reply(attempt);
        attempt := attempt + 1;
        pending := pending + 1;
        match reply {
          case Unauthorized =>
            stop := Some(KeyRejected);
            assert Accounts(w, opts, cands, st, log, stop, trials, next, pending, []);
            return;
          case RateLimited =>
            LimitedAgain(w, next, retries);
            retries := retries + 1;
            if retries > opts.maxRetries {
              stop := Some(RateLimitHeld(opts.maxRetries));
              assert Accounts(w, opts, cands, st, log, stop, trials, next, pending, []);
              return;
            }
            continue;
          case OtherError =>
            outcome := Errored;
          case Answer(o) =>
            outcome := o;
        }
        retries := 0;
      }
      ghost var t := Trial(next, pending, outcome);
      Settled(w, opts, id, t);
      OneMoreSettled(w, opts, cands, trials, t, st, log);
      st := Counted(st, outcome);
      trials, next, pending := trials + [t], next + pending, 0;
      if !opts.dryRun {
        if w.recordFails(|log|) {
          stop := Some(RecordFailed);
          assert Accounts(w, opts, cands, st, log, stop, trials, next, pending, [(id, outcome)]);
          return;
        }
        log := log + [(id, outcome)];
      }
      i := i + 1;
    }
    assert log + [] == log;
    assert Accounts(w, opts, cands, st, log, stop, trials, next, pending, []);
    AllSettled(w, opts, cands, trials, next, st, log);
  }

  // -- The next sweep ----------------------------------------------------------

  datatype Row = Row(id: int, withdrawn: bool, hasStashId: bool)

  type Lookups = map<int, Outcome>

  predicate Due(row: Row, lookups: Lookups) {
    !row.withdrawn && !row.hasStashId && !(row.id in lookups && lookups[row.id] != Errored)
  }

  /** Active, without an id from this box, and never answered by it; `rows` come by id. */
  function Candidates(rows: seq<Row>, lookups: Lookups): seq<int> {
    if rows == [] then []
    else Candidates(rows[..|rows| - 1], lookups) + if Due(rows[|rows| - 1], lookups) then [rows[|rows| - 1].id] else []
  }

  /** Each record replaces an earlier one of the same release. */
  function Recorded(lookups: Lookups, log: Log): Lookups {
    if log == [] then lookups
    else Recorded(lookups, log[..|log| - 1])[log[|log| - 1].0 := log[|log| - 1].1]
  }

  ghost predicate DistinctRows(rows: seq<Row>) {
    forall i, j :: 0 <= i < j < |rows| ==> rows[i].id != rows[j].id
  }

  lemma {:induction false} CandidatesAreDue(rows: seq<Row>, lookups: Lookups, id: int)
    ensures id in Candidates(rows, lookups) <==> exists row :: row in rows && row.id == id && Due(row, lookups)
  {
    hide Due;
    if rows != [] {
      var init, last := rows[..|rows| - 1], rows[|rows| - 1];
      CandidatesAreDue(init, lookups, id);
      assert rows == init + [last];
      assert last in rows;
    }
  }

  /** Who is asked about: releases that are up, have no id from this box, and got no answer from it but
      errors. */
  lemma AskedIff(rows: seq<Row>, lookups: Lookups, row: Row)
    requires DistinctRows(rows) && row in rows
    ensures row.id in Candidates(rows, lookups) <==>
            !row.withdrawn && !row.hasStashId && (row.id in lookups ==> lookups[row.id].Errored?)
  {
    CandidatesAreDue(rows, lookups, row.id);
    hide Candidates;
    if other :| other in rows && other.id == row.id && Due(other, lookups) {
      assert other == row;
    }
  }

  lemma {:induction false} CandidatesDiffer(rows: seq<Row>, lookups: Lookups)
    requires DistinctRows(rows)
    ensures var cands := Candidates(rows, lookups); forall i, j :: 0 <= i < j < |cands| ==> cands[i] != cands[j]
  {
    hide Due;
    if rows != [] {
      var init, last := rows[..|rows| - 1], rows[|rows| - 1];
      CandidatesDiffer(init, lookups);
      CandidatesAreDue(init, lookups, last.id);
      assert forall row :: row in init ==> row.id != last.id;
      var before := Candidates(init, lookups);
      assert forall i :: 0 <= i < |before| ==> before[i] in before;
    }
  }

  /** The last record of an id wins. */
  lemma {:induction false} RecordedLast(lookups: Lookups, log: Log, id: int)
    ensures (forall j :: 0 <= j < |log| ==> log[j].0 != id) ==>
              (id in Recorded(lookups, log) <==> id in lookups) &&
                  (id in lookups ==> Recorded(lookups, log)[id] == lookups[id])
    ensures (exists j :: 0 <= j < |log| && log[j].0 == id) ==>
              id in Recorded(lookups, log) &&
              exists j :: 0 <= j < |log| && log[j] == (id, Recorded(lookups, log)[id])
  {
    if log != [] {
      var init, last := log[..|log| - 1], log[|log| - 1];
      RecordedLast(lookups, init, id);
      assert last == log[|log| - 1];
      assert forall j :: 0 <= j < |init| ==> init[j] == log[j];
    }
  }

  /** What one sweep asks about: all that is due, or the first `limit` of it. */
  function Swept(rows: seq<Row>, lookups: Lookups, limit: int): (cands: seq<int>)
    ensures limit <= 0 ==> cands == Candidates(rows, lookups)
    ensures limit > 0 ==> |cands| <= limit
    ensures cands <= Candidates(rows, lookups) && (|cands| == limit || cands == Candidates(rows, lookups))
  {
    var due := Candidates(rows, lookups);
    if 0 < limit < |due| then due[..limit] else due
  }

  function LogOf(cands: seq<int>, outcomes: seq<Outcome>): Log
    requires |outcomes| == |cands|
  {
    seq(|cands|, i requires 0 <= i < |cands| => (cands[i], outcomes[i]))
  }

  /** After a sweep, what is due next is exactly what ended in an error and what the limit left over: a
      miss or a skip is not asked about again. */
  lemma NextSweepRetriesErrors(rows: seq<Row>, lookups: Lookups, limit: int, cands: seq<int>, outcomes: seq<Outcome>,
                               id: int)
    requires DistinctRows(rows) && cands == Swept(rows, lookups, limit) && |outcomes| == |cands|
    ensures id in Candidates(rows, Recorded(lookups, LogOf(cands, outcomes))) <==>
            (exists j :: 0 <= j < |cands| && cands[j] == id && outcomes[j] == Errored)
            || (id in Candidates(rows, lookups) && id !in cands)
  {
    var log := LogOf(cands, outcomes);
    CandidatesAreDue(rows, lookups, id);
    CandidatesAreDue(rows, Recorded(lookups, log), id);
    RecordedLast(lookups, log, id);
    CandidatesDiffer(rows, lookups);
    if id in cands {
      var j :| 0 <= j < |cands| && cands[j] == id;
      assert log[j].0 == id;
      assert id in Candidates(rows, lookups);
    }
    hide Recorded, Candidates;
  }

  lemma {:induction false} SameDueSameCandidates(rows: seq<Row>, a: Lookups, b: Lookups)
    requires forall row :: row in rows ==> (Due(row, a) <==> Due(row, b))
    ensures Candidates(rows, a) == Candidates(rows, b)
  {
    hide Due;
    if rows != [] {
      assert rows[|rows| - 1] in rows;
      SameDueSameCandidates(rows[..|rows| - 1], a, b);
    }
  }

  lemma ErrorsStayDue(rows: seq<Row>, lookups: Lookups, cands: seq<int>, outcomes: seq<Outcome>, row: Row)
    requires DistinctRows(rows) && row in rows && |outcomes| == |cands|
    requires forall j :: 0 <= j < |cands| ==> cands[j] in Candidates(rows, lookups) && outcomes[j] == Errored
    ensures Due(row, Recorded(lookups, LogOf(cands, outcomes))) <==> Due(row, lookups)
  {
    var log := LogOf(cands, outcomes);
    RecordedLast(lookups, log, row.id);
    CandidatesAreDue(rows, lookups, row.id);
    if j :| 0 <= j < |log| && log[j].0 == row.id {
      assert cands[j] in Candidates(rows, lookups);
      var other :| other in rows && other.id == row.id && Due(other, lookups);
      assert other == row;
    }
    hide Recorded, Candidates;
  }

  /** So where everything a limited sweep asks about ends in an error, the next one asks the same again,
      and never gets to the rest. */
  lemma SweepOfErrorsRepeats(rows: seq<Row>, lookups: Lookups, limit: int, cands: seq<int>, outcomes: seq<Outcome>)
    requires DistinctRows(rows) && cands == Swept(rows, lookups, limit) && |outcomes| == |cands|
    requires forall j :: 0 <= j < |outcomes| ==> outcomes[j] == Errored
    ensures Swept(rows, Recorded(lookups, LogOf(cands, outcomes)), limit) == cands
  {
    forall j | 0 <= j < |cands| ensures cands[j] in Candidates(rows, lookups) {
      assert cands[j] == Candidates(rows, lookups)[j];
    }
    forall row | row in rows ensures Due(row, Recorded(lookups, LogOf(cands, outcomes))) <==> Due(row, lookups) {
      ErrorsStayDue(rows, lookups, cands, outcomes, row);
    }
    hide Due, Recorded, Candidates;
    SameDueSameCandidates(rows, Recorded(lookups, LogOf(cands, outcomes)), lookups);
  }
}
