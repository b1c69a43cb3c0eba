/** Duplicates: what a repeated upload changes, and when two tracks of a release come to say the same. */
module Twins {
  import opened Wrappers
  import opened Catalogue
  import opened Uploads

  // -- Duplicates ----------------------------------------------------------------

  /** All a duplicate upload may change of the track it hit. */
  predicate OnlyCorrected(t: TrackRow, u: TrackRow) {
    && u == t.(kind := u.kind, kindLabel := u.kindLabel, authorship := u.authorship, declared := u.declared)
    && (t.declared ==> u.declared)
  }

  /** A re-upload of what the node already holds adds nothing. It touches that one track at most,
      never its text or a takedown, never takes a disclosure back, and nothing at all unless the
      caller is the track's own uploader. */
  lemma DuplicateChangesLittle(db: Db, req: Request, diverge: Divergence)
    requires WellKept(db)
    requires var (db1, r) := GetOrCreateRelease(db, req.oshash, req.phash, req.durationMs);
             r in db1.releases && db1.releases[r].withdrawn.None? && FindIdenticalTrack(db1, r, req.lang, req.body) != 0
    ensures var r := GetOrCreateRelease(db, req.oshash, req.phash, req.durationMs).1;
            var existing := FindIdenticalTrack(db, r, req.lang, req.body);
            var (db', todo) := Prepare(db, req, diverge);
            && existing in db.tracks && db'.tracks.Keys == db.tracks.Keys
            && (forall t :: t in db.tracks && t != existing ==> db'.tracks[t] == db.tracks[t])
            && OnlyCorrected(db.tracks[existing], db'.tracks[existing])
            && (!db.tracks[existing].Live() ==> todo == Nothing(TrackGone) && db'.tracks == db.tracks)
            && (db.tracks[existing].Live() ==> todo == Nothing(Duplicate(existing)))
            && (db.tracks[existing].uploader != Some(req.account) ==> db'.tracks == db.tracks)
  {
    GetOrCreateReleaseFinds(db, req.oshash, req.phash, req.durationMs);
    var (db1, r) := GetOrCreateRelease(db, req.oshash, req.phash, req.durationMs);
    SameTracksSameFind(db, db1, r, req.lang, req.body, 1);
    hide GetOrCreateRelease, IdenticalFrom, WellKept;
  }

  lemma {:induction false} SameTracksSameFind(a: Db, b: Db, r: int, lang: string, body: string, from: int)
    requires a.tracks == b.tracks && a.nextTrack == b.nextTrack && from >= 1
    ensures IdenticalFrom(a, r, lang, body, from) == IdenticalFrom(b, r, lang, body, from)
    decreases a.nextTrack - from
  {
    if from < a.nextTrack {
      SameTracksSameFind(a, b, r, lang, body, from + 1);
    }
  }

  predicate SaysSame(t: TrackRow, u: TrackRow) {
    Says(t, u.releaseId, u.lang, u.body)
  }

  /** No two tracks of a release say the same in the same language. */
  ghost predicate NoTwins(db: Db) {
    forall t, u :: t in db.tracks && u in db.tracks && SaysSame(db.tracks[t], db.tracks[u]) ==> t == u
  }

  ghost predicate NobodySays(db: Db, track: TrackRow) {
    forall t :: t in db.tracks ==> !SaysSame(db.tracks[t], track)
  }

  lemma FlagsKeepTexts(before: Db, after: Db)
    requires OnlyFlags(before, after)
    ensures NoTwins(before) ==> NoTwins(after)
    ensures forall track :: NobodySays(before, track) ==> NobodySays(after, track)
  {
    assert forall t :: t in before.tracks ==> SameShape(before.tracks[t], after.tracks[t]);
  }

  /** What is left to create is new to the catalogue. */
  lemma PreparedIsNew(db: Db, req: Request, diverge: Divergence)
    requires WellKept(db)
    ensures var (db', todo) := Prepare(db, req, diverge); !todo.Nothing? ==> NobodySays(db', todo.track)
  {
    GetOrCreateReleaseFinds(db, req.oshash, req.phash, req.durationMs);
    var (db1, r) := GetOrCreateRelease(db, req.oshash, req.phash, req.durationMs);
    var existing := FindIdenticalTrack(db1, r, req.lang, req.body);
    assert existing == 0 ==> NobodySays(db1, NewTrack(req, r));
    hide GetOrCreateRelease, IdenticalFrom, Head, WellKept, NobodySays;
  }

  lemma CommitAddsOne(db: Db, todo: Todo)
    requires Sound(db) && Checked(db, todo) && !todo.Nothing? && NoTwins(db) && NobodySays(db, todo.track)
    ensures NoTwins(Commit(db, todo).0)
  {
    var db' := Commit(db, todo).0;
    if todo.Create? {
      CreateKeepsSound(db, todo.track);
      hide Sound, CreateTrack;
      InsertKeepsTexts(db, todo.track.(root := db.nextTrack, revision := 1), todo.track);
    } else if SupersedeTrack(db, todo.target, todo.track).Success? {
      SupersedeExtends(db, todo.target, todo.track);
      hide Sound, SupersedeTrack, Extended, MaxRevision;
      InsertKeepsTexts(db, NextRevision(db, todo.target, todo.track), todo.track);
    }
    hide NoTwins;
  }

  lemma InsertKeepsTexts(db: Db, row: TrackRow, track: TrackRow)
    requires NoTwins(db) && NobodySays(db, track)
    requires row.releaseId == track.releaseId && row.lang == track.lang && row.body == track.body &&
             db.nextTrack !in db.tracks
    ensures NoTwins(AddRow(db, row))
  {
  }

  lemma SoundIsKept(db: Db)
    requires Sound(db)
    ensures WellKept(db)
  {
  }

  // -- Runs that stay free of twins ------------------------------------------------

  /** No two rows say the same, nor a row and a request under way, nor two requests under way. */
  ghost predicate TwinFree(s: State) {
    && NoTwins(s.db)
    && (forall i :: 0 <= i < |s.pending| ==> !s.pending[i].Nothing? && NobodySays(s.db, s.pending[i].track))
    && (forall i, j :: 0 <= i < j < |s.pending| ==> !SaysSame(s.pending[i].track, s.pending[j].track))
  }

  /** A request under way is for the same text of the same release in the same language. */
  predicate Clashes(s: State, req: Request) {
    var r := GetOrCreateRelease(s.db, req.oshash, req.phash, req.durationMs).1;
    exists i :: 0 <= i < |s.pending| && Wants(s.pending[i], r, req)
  }

  predicate Wants(todo: Todo, r: int, req: Request) {
    !todo.Nothing? && Says(todo.track, r, req.lang, req.body)
  }

  /** No request that leaves something to do is prepared while another for the same text is under way. */
  predicate Careful(s: State, events: seq<Event>, diverge: Divergence)
    decreases events
  {
    events == [] || (CarefulStep(s, events[0], diverge) && Careful(Next(s, events[0], diverge), events[1..], diverge))
  }

  predicate CarefulStep(s: State, e: Event, diverge: Divergence) {
    e.Submit? ==> Prepare(s.db, e.req, diverge).1.Nothing? || !Clashes(s, e.req)
  }

  lemma PreparedSays(db: Db, req: Request, diverge: Divergence)
    ensures var todo := Prepare(db, req, diverge).1;
            !todo.Nothing? ==> Wants(todo, GetOrCreateRelease(db, req.oshash, req.phash, req.durationMs).1, req)
  {
    hide GetOrCreateRelease, FindIdenticalTrack, Head;
  }

  lemma CommitAddsOnlyIts(db: Db, todo: Todo, track: TrackRow)
    requires Sound(db) && Checked(db, todo) && !todo.Nothing? && NobodySays(db, track) && !SaysSame(todo.track, track)
    ensures NobodySays(Commit(db, todo).0, track)
  {
    if todo.Create? {
      CreateKeepsSound(db, todo.track);
      hide Sound, CreateTrack;
    } else if SupersedeTrack(db, todo.target, todo.track).Success? {
      SupersedeExtends(db, todo.target, todo.track);
      hide Sound, SupersedeTrack, Extended, MaxRevision;
    }
  }

  lemma SubmitStaysTwinFree(s: State, req: Request, diverge: Divergence)
    requires Inv(s) && TwinFree(s) && CarefulStep(s, Submit(req), diverge)
    ensures TwinFree(Next(s, Submit(req), diverge))
  {
    hide Sound;
    PrepareKeepsSound(s.db, req, diverge);
    FlagsKeepTexts(s.db, Prepare(s.db, req, diverge).0);
    SoundIsKept(s.db);
    PreparedIsNew(s.db, req, diverge);
    PreparedSays(s.db, req, diverge);
    hide NoTwins, NobodySays, Prepare, GetOrCreateRelease;
  }

  lemma FinishStaysTwinFree(s: State, i: nat, diverge: Divergence)
    requires Inv(s) && TwinFree(s) && i < |s.pending|
    ensures TwinFree(Next(s, Finish(i), diverge))
  {
    hide Sound;
    var todo, s' := s.pending[i], Next(s, Finish(i), diverge);
    CommitAddsOne(s.db, todo);
    forall j | 0 <= j < |s.pending| && j != i ensures NobodySays(s'.db, s.pending[j].track) {
      CommitAddsOnlyIts(s.db, todo, s.pending[j].track);
    }
    hide NoTwins, NobodySays, Commit, Checked;
  }

  lemma NextStaysTwinFree(s: State, e: Event, diverge: Divergence)
    requires Inv(s) && TwinFree(s) && CarefulStep(s, e, diverge)
    ensures TwinFree(Next(s, e, diverge))
  {
    hide Sound;
    match e {
      case Submit(req) => SubmitStaysTwinFree(s, req, diverge);
      case Finish(i) => if i < |s.pending| { FinishStaysTwinFree(s, i, diverge); }
      case _ =>
        ModerationKeepsSound(s, e, diverge);
        FlagsKeepTexts(s.db, Next(s, e, diverge).db);
    }
    hide NoTwins, NobodySays, Prepare, Commit, CarefulStep;
  }

  /** Over every careful run, however requests for different texts overlap and whatever moderation
      happens meanwhile, no two tracks of a release ever say the same in the same language. */
  lemma {:induction false} CarefulRunsStayTwinFree(s: State, events: seq<Event>, diverge: Divergence)
    requires Inv(s) && TwinFree(s) && Careful(s, events, diverge)
    ensures Inv(Run(s, events, diverge)) && TwinFree(Run(s, events, diverge))
    decreases events
  {
    if events != [] {
      NextStaysTwinFree(s, events[0], diverge);
      NextKeepsInv(s, events[0], diverge);
      CarefulRunsStayTwinFree(Next(s, events[0], diverge), events[1..], diverge);
    }
    hide TwinFree, Inv, Next, CarefulStep;
  }

  /** In particular from an empty node. */
  lemma NoTwinsFromStart(events: seq<Event>, diverge: Divergence)
    requires Careful(START, events, diverge)
    ensures NoTwins(Run(START, events, diverge).db)
  {
    StartIsSound();
    CarefulRunsStayTwinFree(START, events, diverge);
    hide Run, Careful, Inv;
  }

  // -- A clash makes twins -----------------------------------------------------------

  predicate NoSubmits(events: seq<Event>) {
    forall i :: 0 <= i < |events| ==> !events[i].Submit?
  }

  /** `after` differs from `before` in flags of tracks only. */
  ghost predicate OnlyModerated(before: State, after: State) {
    && after.pending == before.pending && Sound(after.db)
    && after.db.releases == before.db.releases && OnlyFlags(before.db, after.db)
  }

  function ClearingStep(target: int, n: int): Event {
    if n == target then Lock(target, false) else Withdraw(n, 0)
  }

  /** Withdraws every track up to `n` but one, and unlocks that one. */
  function Clearing(target: int, n: nat): seq<Event> {
    if n == 0 then [] else Clearing(target, n - 1) + [ClearingStep(target, n)]
  }

  predicate Cleared(db: Db, target: int, n: nat) {
    && (forall t :: t in db.tracks && t != target && 1 <= t <= n ==> !db.tracks[t].Live())
    && (target in db.tracks && 1 <= target <= n ==> !db.tracks[target].locked)
  }

  lemma ClearedOneMore(s: State, target: int, n: nat, diverge: Divergence)
    requires Cleared(s.db, target, n)
    ensures var s' := Next(s, ClearingStep(target, n + 1), diverge);
            Cleared(s'.db, target, n + 1) && s'.pending == s.pending && s'.db.releases == s.db.releases
  {
  }

  lemma FlagsTwice(a: Db, b: Db, c: Db)
    requires OnlyFlags(a, b) && OnlyFlags(b, c)
    ensures OnlyFlags(a, c)
  {
    forall t | t in a.tracks ensures SameShape(a.tracks[t], c.tracks[t]) {
      assert SameShape(a.tracks[t], b.tracks[t]) && SameShape(b.tracks[t], c.tracks[t]);
    }
  }

  lemma {:induction false} ClearingClears(s: State, target: int, n: nat, diverge: Divergence)
    requires Sound(s.db)
    ensures NoSubmits(Clearing(target, n))
    ensures var s' := Run(s, Clearing(target, n), diverge); OnlyModerated(s, s') && Cleared(s'.db, target, n)
  {
    hide Sound, Next;
    if n > 0 {
      hide SameShape, Cleared;
      ClearingClears(s, target, n - 1, diverge);
      var t := Run(s, Clearing(target, n - 1), diverge);
      RunThen(s, Clearing(target, n - 1), ClearingStep(target, n), diverge);
      ModerationKeepsSound(t, ClearingStep(target, n), diverge);
      ClearedOneMore(t, target, n - 1, diverge);
      FlagsTwice(s.db, t.db, Next(t, ClearingStep(target, n), diverge).db);
      hide Run, OnlyFlags;
    }
  }

  /** The only live track of a node, unlocked, can be superseded. */
  lemma AloneIsEligible(db: Db, target: int)
    requires Sound(db) && Alone(db, target)
    ensures Eligible(db, target)
  {
    HeadIsHead(db, db.tracks[target].root);
    hide Head, AllSound, DistinctRevisions, IndexHolds;
    assert IsHead(db, db.tracks[target].root, target);
  }

  /** Moderation can always bring a node where a given revision is accepted. */
  lemma ClearTheWay(s: State, target: int, diverge: Divergence) returns (events: seq<Event>)
    requires Sound(s.db) && target in s.db.tracks
    ensures NoSubmits(events)
    ensures var s' := Run(s, events, diverge); OnlyModerated(s, s') && Eligible(s'.db, target)
  {
    hide Head, Next, SameShape, Clearing, AllSound, DistinctRevisions, IndexHolds;
    TracksAreNumbered(s.db, target);
    var first := Clearing(target, s.db.nextTrack);
    events := first + [Restore(target)];
    ClearingClears(s, target, s.db.nextTrack, diverge);
    hide Sound, WellKept;
    var t := Run(s, first, diverge);
    RunThen(s, first, Restore(target), diverge);
    ModerationKeepsSound(t, Restore(target), diverge);
    RestoringLeavesOne(t, target, diverge);
    AloneIsEligible(RestoreTrack(t.db, target), target);
    FlagsTwice(s.db, t.db, RestoreTrack(t.db, target));
    hide Run, OnlyFlags, RestoreTrack, Cleared, Eligible;
  }

  lemma TracksAreNumbered(db: Db, target: int)
    requires Sound(db) && target in db.tracks
    ensures db.nextTrack >= 1 && 1 <= target < db.nextTrack
  {
  }

  /** `target` is the one live track there is, and is not locked. */
  predicate Alone(db: Db, target: int) {
    && target in db.tracks && db.tracks[target].Live() && !db.tracks[target].locked
    && forall t :: t in db.tracks && t != target ==> !db.tracks[t].Live()
  }

  lemma RestoringLeavesOne(s: State, target: int, diverge: Divergence)
    requires Sound(s.db) && target in s.db.tracks && s.db.nextTrack >= 1 && Cleared(s.db, target, s.db.nextTrack)
    ensures var s' := Next(s, Restore(target), diverge);
            s'.db == RestoreTrack(s.db, target) && Alone(s'.db, target) && s'.pending == s.pending &&
                s'.db.releases == s.db.releases
  {
    hide AllSound, DistinctRevisions, IndexHolds;
    var t := s.db.tracks[target];
    if !t.Live() && t.supersedes.Some? {
      forall u | u in s.db.tracks ensures !s.db.tracks[u].Live() {
        assert 1 <= u < s.db.nextTrack;
      }
      assert !Superseded(s.db, t.supersedes.value);
    }
  }

  /** `db` got one more row, saying what `track` says. */
  ghost predicate Added(before: Db, after: Db, id: int, track: TrackRow) {
    Grows(before, after) && id !in before.tracks && id in after.tracks && SaysSame(after.tracks[id], track)
  }

  lemma AddedSince(before: Db, between: Db, after: Db, id: int, track: TrackRow)
    requires Grows(before, between) && Added(between, after, id, track)
    ensures Added(before, after, id, track)
  {
    GrowsOn(before, between, after);
  }

  lemma FinishAdds(s: State, i: nat, diverge: Divergence)
    requires Inv(s) && i < |s.pending| && !s.pending[i].Nothing?
    requires s.pending[i].Supersede? ==> Eligible(s.db, s.pending[i].target)
    ensures var s' := Next(s, Finish(i), diverge);
            && Inv(s') && s'.pending == s.pending[..i] + s.pending[i + 1..]
            && Added(s.db, s'.db, s.db.nextTrack, s.pending[i].track)
  {
    hide Sound, Checked, Commit, Added, Eligible;
    NextKeepsInv(s, Finish(i), diverge);
    if s.pending[i].Supersede? {
      EligibleCommitAdds(s.db, s.pending[i]);
    } else {
      CreationAdds(s.db, s.pending[i]);
    }
  }

  /** Whatever is under way can still be brought to an end that adds its track. */
  lemma CanFinish(s: State, i: nat, diverge: Divergence) returns (events: seq<Event>, id: int)
    requires Inv(s) && i < |s.pending| && !s.pending[i].Nothing?
    ensures NoSubmits(events)
    ensures var s' := Run(s, events, diverge);
            Inv(s') && s'.pending == s.pending[..i] + s.pending[i + 1..] && Added(s.db, s'.db, id, s.pending[i].track)
  {
    hide Run, Sound, Checked, Next, Added, Grows, Eligible, OnlyFlags;
    var clearing := [];
    if s.pending[i].Supersede? {
      TargetIsThere(s, i);
      clearing := ClearTheWay(s, s.pending[i].target, diverge);
    } else {
      RunNothing(s, clearing, diverge);
    }
    var t := Run(s, clearing, diverge);
    hide Inv;
    ChainsStaySound(s, clearing, diverge);
    FinishAdds(t, i, diverge);
    id := t.db.nextTrack;
    RunThen(s, clearing, Finish(i), diverge);
    AddedSince(s.db, t.db, Next(t, Finish(i), diverge).db, id, s.pending[i].track);
    events := clearing + [Finish(i)];
  }

  lemma TargetIsThere(s: State, i: nat)
    requires Inv(s) && i < |s.pending| && s.pending[i].Supersede?
    ensures s.pending[i].target in s.db.tracks
  {
    assert Checked(s.db, s.pending[i]);
    hide Sound;
  }

  lemma CreationAdds(db: Db, todo: Todo)
    requires Sound(db) && Checked(db, todo) && todo.Create?
    ensures Added(db, Commit(db, todo).0, db.nextTrack, todo.track)
  {
    CommitKeepsSound(db, todo);
    CreationStartsAChain(db, todo);
    hide Commit, Sound, Grows;
  }

  lemma EligibleCommitAdds(db: Db, todo: Todo)
    requires Sound(db) && Checked(db, todo) && todo.Supersede? && Eligible(db, todo.target)
    ensures Added(db, Commit(db, todo).0, db.nextTrack, todo.track)
  {
    CommitKeepsSound(db, todo);
    HeadCanBeSuperseded(db, todo.target, todo.track);
    SupersedeExtends(db, todo.target, todo.track);
    RowSaysIt(db, todo.target, todo.track);
    hide SupersedeTrack, Sound, Grows, Extended, Eligible, NextRevision;
  }

  lemma RowSaysIt(db: Db, target: int, track: TrackRow)
    requires WellKept(db) && target in db.tracks
    ensures var db' := AddRow(db, NextRevision(db, target, track));
            db.nextTrack !in db.tracks && db.nextTrack in db'.tracks && SaysSame(db'.tracks[db.nextTrack], track)
  {
    hide MaxRevision;
  }

  // -- Exactly when twins can come about ---------------------------------------------

  /** However what is under way is finished and whatever moderation happens, no twins appear. */
  ghost predicate Safe(s: State, diverge: Divergence) {
    forall events :: NoSubmits(events) ==> NoTwins(Run(s, events, diverge).db)
  }

  lemma {:induction false} NoSubmitsIsCareful(s: State, events: seq<Event>, diverge: Divergence)
    requires NoSubmits(events)
    ensures Careful(s, events, diverge)
    decreases events
  {
    if events != [] {
      NoSubmitsIsCareful(Next(s, events[0], diverge), events[1..], diverge);
    }
    hide Next, Clashes, Prepare;
  }

  lemma TwinFreeIsSafe(s: State, diverge: Divergence)
    requires Inv(s) && TwinFree(s)
    ensures Safe(s, diverge)
  {
    forall events | NoSubmits(events) ensures NoTwins(Run(s, events, diverge).db) {
      NoSubmitsIsCareful(s, events, diverge);
      CarefulRunsStayTwinFree(s, events, diverge);
      hide Inv, Run, Careful, NoTwins, NoSubmits;
    }
  }

  /** Two requests under way for one text can both end in a track. */
  lemma ClashIsUnsafe(s: State, i: nat, j: nat, diverge: Divergence)
    requires Inv(s) && i < j < |s.pending| && !s.pending[i].Nothing? && !s.pending[j].Nothing?
    requires SaysSame(s.pending[i].track, s.pending[j].track)
    ensures !Safe(s, diverge)
  {
    hide Inv, SaysSame, NoSubmits, Added, NoTwins, Run;
    var second, b := CanFinish(s, j, diverge);
    var t := Run(s, second, diverge);
    assert t.pending[i] == s.pending[i];
    var first, a := CanFinish(t, i, diverge);
    var u := Run(t, first, diverge);
    RunInTwo(s, second, first, diverge);
    BothAreThere(s.db, t.db, u.db, s.pending[j].track, b, s.pending[i].track, a);
    NoSubmitsJoin(second, first);
  }

  lemma NoSubmitsJoin(a: seq<Event>, b: seq<Event>)
    requires NoSubmits(a) && NoSubmits(b)
    ensures NoSubmits(a + b)
  {
  }

  lemma BothAreThere(a: Db, b: Db, c: Db, t: TrackRow, i: int, u: TrackRow, j: int)
    requires Added(a, b, i, t) && Added(b, c, j, u) && SaysSame(u, t)
    ensures !NoTwins(c)
  {
    assert SameShape(b.tracks[i], c.tracks[i]);
    assert SaysSame(c.tracks[i], c.tracks[j]) && i != j;
  }

  /** Submitting a request while nothing says the same twice stays safe exactly when it leaves
      nothing to do or no request under way is for the same text of the same release. */
  lemma SubmitIsSafeIff(s: State, req: Request, diverge: Divergence)
    requires Inv(s) && TwinFree(s)
    ensures Safe(Next(s, Submit(req), diverge), diverge) <==> CarefulStep(s, Submit(req), diverge)
  {
    hide Sound, Checked;
    NextKeepsInv(s, Submit(req), diverge);
    if CarefulStep(s, Submit(req), diverge) {
      hide Next, Inv, TwinFree, Safe, CarefulStep;
      NextStaysTwinFree(s, Submit(req), diverge);
      TwinFreeIsSafe(Next(s, Submit(req), diverge), diverge);
    } else {
      var i := ClashingRequest(s, req);
      PreparedSays(s.db, req, diverge);
      hide Prepare, GetOrCreateRelease, Inv, TwinFree, Safe;
      ClashIsUnsafe(Next(s, Submit(req), diverge), i, |s.pending|, diverge);
    }
  }

  lemma ClashingRequest(s: State, req: Request) returns (i: nat)
    requires Clashes(s, req)
    ensures i < |s.pending| && Wants(s.pending[i], GetOrCreateRelease(s.db, req.oshash, req.phash, req.durationMs).1,
            req)
  {
    hide GetOrCreateRelease, Wants;
    var r := GetOrCreateRelease(s.db, req.oshash, req.phash, req.durationMs).1;
    i :| 0 <= i < |s.pending| && Wants(s.pending[i], r, req);
  }

  /** The exact condition, for every run: at no point can twins still come about exactly when no
      request that leaves something to do was prepared while another for the same text was under way. */
  lemma {:induction false} NeverTwinsIff(s: State, events: seq<Event>, diverge: Divergence)
    requires Inv(s) && TwinFree(s)
    ensures (forall n :: 0 <= n <= |events| ==> Safe(Run(s, events[..n], diverge), diverge)) <==>
            Careful(s, events, diverge)
    decreases events
  {
    hide Inv, TwinFree, Safe, Next, CarefulStep, Run;
    if Careful(s, events, diverge) {
      forall n | 0 <= n <= |events| ensures Safe(Run(s, events[..n], diverge), diverge) {
        CarefulPrefix(s, events, n, diverge);
        CarefulRunsStayTwinFree(s, events[..n], diverge);
        TwinFreeIsSafe(Run(s, events[..n], diverge), diverge);
      }
    } else if CarefulStep(s, events[0], diverge) {
      var s', rest := Next(s, events[0], diverge), events[1..];
      NextStaysTwinFree(s, events[0], diverge);
      NextKeepsInv(s, events[0], diverge);
      NeverTwinsIff(s', rest, diverge);
      var n :| 0 <= n <= |rest| && !Safe(Run(s', rest[..n], diverge), diverge);
      PrefixAfterFirst(s, events, n, diverge);
      assert !Safe(Run(s, events[..n + 1], diverge), diverge);
    } else {
      UncarefulIsUnsafe(s, events, diverge);
      assert !Safe(Run(s, events[..1], diverge), diverge);
    }
  }

  lemma PrefixAfterFirst(s: State, events: seq<Event>, n: nat, diverge: Divergence)
    requires n < |events|
    ensures Run(s, events[..n + 1], diverge) == Run(Next(s, events[0], diverge), events[1..][..n], diverge)
  {
    hide Next;
    assert events[..n + 1][0] == events[0] && events[..n + 1][1..] == events[1..][..n];
  }

  lemma UncarefulIsUnsafe(s: State, events: seq<Event>, diverge: Divergence)
    requires Inv(s) && TwinFree(s) && events != [] && !CarefulStep(s, events[0], diverge)
    ensures !Safe(Run(s, events[..1], diverge), diverge)
  {
    hide Inv, TwinFree, Safe, Next, Prepare;
    SubmitIsSafeIff(s, events[0].req, diverge);
    PrefixAfterFirst(s, events, 0, diverge);
    assert events[1..][..0] == [];
  }

  lemma {:induction false} CarefulPrefix(s: State, events: seq<Event>, n: nat, diverge: Divergence)
    requires Careful(s, events, diverge) && n <= |events|
    ensures Careful(s, events[..n], diverge)
    decreases events
  {
    hide Next, CarefulStep;
    if n > 0 {
      CarefulPrefix(Next(s, events[0], diverge), events[1..], n - 1, diverge);
      assert events[..n][0] == events[0] && events[..n][1..] == events[1..][..n - 1];
    }
  }

  // -- The overlap that happens --------------------------------------------------------

  /** Preparing a creation twice prepares it twice. */
  lemma PrepareAgain(db: Db, req: Request, diverge: Divergence)
    requires Sound(db) && Prepare(db, req, diverge).1.Create?
    ensures var (db', todo) := Prepare(db, req, diverge); Prepare(db', req, diverge) == (db', todo)
  {
    SoundIsKept(db);
    var (db1, r) := GetOrCreateRelease(db, req.oshash, req.phash, req.durationMs);
    GetOrCreateReleaseFinds(db, req.oshash, req.phash, req.durationMs);
    GetOrCreateReleaseFinds(db1, req.oshash, req.phash, req.durationMs);
    hide Sound, GetOrCreateRelease, FindIdenticalTrack, Propose;
  }

  /** Finding and creating are two transactions: submitted again before it is finished, an upload
      that creates a track creates it twice, the first of a new file included. */
  lemma OverlappingUploadsMakeTwins(s: State, req: Request, diverge: Divergence)
    requires Inv(s) && Prepare(s.db, req, diverge).1.Create?
    ensures var n := |s.pending|;
            !NoTwins(Run(s, [Submit(req), Submit(req), Finish(n), Finish(n)], diverge).db)
  {
    hide Sound, Prepare, Commit, Checked, Grows, NoTwins, SaysSame, Added, Run;
    var n := |s.pending|;
    var (db, todo) := Prepare(s.db, req, diverge);
    PrepareAgain(s.db, req, diverge);
    PrepareKeepsSound(s.db, req, diverge);
    var first := Commit(db, todo).0;
    var second := Commit(first, todo).0;
    CommitKeepsSound(db, todo);
    CheckedStays(db, first, todo);
    CreationAdds(db, todo);
    CreationAdds(first, todo);
    TracksSayTheirOwn(todo.track);
    BothAreThere(db, first, second, todo.track, db.nextTrack, todo.track, first.nextTrack);
    FourSteps(s, Submit(req), Submit(req), Finish(n), Finish(n), diverge);
    var twice := s.pending + [todo] + [todo];
    assert twice[n] == todo && twice[..n] + twice[n + 1..] == s.pending + [todo];
  }

  lemma TracksSayTheirOwn(t: TrackRow)
    ensures SaysSame(t, t)
  {
  }

  lemma FourSteps(s: State, a: Event, b: Event, c: Event, d: Event, diverge: Divergence)
    ensures Run(s, [a, b, c, d], diverge) == Next(Next(Next(Next(s, a, diverge), b, diverge), c, diverge), d, diverge)
  {
    hide Next, Run;
    RunThen(s, [], a, diverge);
    RunThen(s, [a], b, diverge);
    RunThen(s, [a, b], c, diverge);
    RunThen(s, [a, b, c], d, diverge);
    assert [] + [a] == [a] && [a] + [b] == [a, b] && [a, b] + [c] == [a, b, c] && [a, b, c] + [d] == [a, b, c, d];
    RunNothing(s, [], diverge);
  }

  lemma RunNothing(s: State, none: seq<Event>, diverge: Divergence)
    requires none == []
    ensures Run(s, none, diverge) == s
  {
  }

  /** So any plain upload submitted twice to an empty node, before it is finished, is there twice. */
  lemma FirstUploadTwice(req: Request, diverge: Divergence)
    requires req.supersedes == 0
    ensures !NoTwins(Run(START, [Submit(req), Submit(req), Finish(0), Finish(0)], diverge).db)
  {
    StartIsSound();
    GetOrCreateReleaseFinds(EMPTY, req.oshash, req.phash, req.durationMs);
    assert Prepare(EMPTY, req, diverge).1.Create?;
    OverlappingUploadsMakeTwins(START, req, diverge);
    hide *;
  }
}
