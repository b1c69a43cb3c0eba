/** A later dump of a chain joins what an earlier import of it left, whatever else the node holds. */
module Rejoining {
  import opened Wrappers
  import opened Catalogue
  import opened Dumps
  import opened Imports
  import Reimport

  /** What a track line says here, if its release is up and its text parses. */
  function TextOf(releaseIds: map<int, int>, t: TrackLine, render: Render): Option<(int, string, string)> {
    if t.releaseId in releaseIds && releaseIds[t.releaseId] != 0 && render(t.body).Some?
    then Some((releaseIds[t.releaseId], t.lang, render(t.body).value))
    else None
  }

  predicate SaidBy(row: TrackRow, text: Option<(int, string, string)>) {
    text == Some((row.releaseId, row.lang, row.body))
  }

  /** The lines after the root's, for the chain of root `r`: ids are distinct, a revision of the chain
      says what no line outside it says, and what it supersedes, if dumped here, is in the chain. */
  ghost predicate ChainedLines(ts: seq<TrackLine>, releaseIds: map<int, int>, r: int, render: Render) {
    && (forall i :: 0 <= i < |ts| ==> ts[i].id != r)
    && (forall i, j :: 0 <= i < j < |ts| ==> ts[i].id != ts[j].id)
    && (forall i :: 0 <= i < |ts| && ts[i].root == r ==> ts[i].supersedes.Some?)
    && (forall i, j :: 0 <= i < |ts| && 0 <= j < |ts| && ts[i].root == r && ts[j].root != r ==>
       Apart(ts[i], ts[j], releaseIds, render))
  }

  /** `t` neither supersedes `u` nor says the same. */
  ghost predicate Apart(t: TrackLine, u: TrackLine, releaseIds: map<int, int>, render: Render) {
    t.supersedes != Some(u.id) &&
    (TextOf(releaseIds, t, render).Some? ==> TextOf(releaseIds, t, render) != TextOf(releaseIds, u, render))
  }

  /** So far everything of the chain that was seen has local root `root`, and so has every row here
      that says what a line of the chain says: an earlier import of the chain, or nothing. */
  ghost predicate Joined(s: Pass, ts: seq<TrackLine>, r: int, root: int, render: Render) {
    && root != 0 && s.trackIds.Keys == s.trackRoots.Keys && r in s.trackRoots && s.trackRoots[r] == root
    && (forall i :: 0 <= i < |ts| && ts[i].root == r ==> LineJoined(s, ts[i], root, render))
  }

  ghost predicate LineJoined(s: Pass, t: TrackLine, root: int, render: Render) {
    && (t.supersedes.Some? && t.supersedes.value in s.trackRoots ==> s.trackRoots[t.supersedes.value] == root)
    && (forall x :: x in s.db.tracks && SaidBy(s.db.tracks[x], TextOf(s.releaseIds, t, render)) ==>
       s.db.tracks[x].root == root)
  }

  /** What one track line does to what the pass remembers and to the rows' roots. */
  lemma StepEffect(s: Pass, t: TrackLine, render: Render)
    requires Proper(s) && TrackStep(s, t, render).Success?
    ensures var s' := TrackStep(s, t, render).value;
            && s'.releaseIds == s.releaseIds
            && (TextOf(s.releaseIds, t, render).None? ==> s' == s.(stats := s'.stats))
            && (TextOf(s.releaseIds, t, render).Some? ==>
                  t.id in s'.trackIds && t.id in s'.trackRoots && s'.trackIds[t.id] in s'.db.tracks
                  && s'.trackIds == s.trackIds[t.id := s'.trackIds[t.id]] &&
                     s'.trackRoots == s.trackRoots[t.id := s'.trackRoots[t.id]]
                  && SaidBy(s'.db.tracks[s'.trackIds[t.id]], TextOf(s.releaseIds, t, render))
                  && s'.db.tracks[s'.trackIds[t.id]].root == s'.trackRoots[t.id]
                  && (s'.trackIds[t.id] in s.db.tracks ==>
                     SaidBy(s.db.tracks[s'.trackIds[t.id]], TextOf(s.releaseIds, t, render))
                                                           && s.db.tracks[s'.trackIds[t.id]].root ==
                                                              s'.trackRoots[t.id])
                  && (s'.trackIds[t.id] !in s.db.tracks ==> Relink(s, t).1 != 0 ==>
                     s'.trackRoots[t.id] == Relink(s, t).1)
                  && s'.db.tracks.Keys == s.db.tracks.Keys + {s'.trackIds[t.id]}
                  && (forall x :: x in s.db.tracks && x != s'.trackIds[t.id] ==> s'.db.tracks[x] == s.db.tracks[x]))
  {
    if TextOf(s.releaseIds, t, render).Some? {
      var text := TextOf(s.releaseIds, t, render).value;
      var existing := FindIdenticalTrack(s.db, text.0, text.1, text.2);
      Reimport.FoundIsLowest(s.db, text.0, text.1, text.2);
      assert s.db.nextTrack !in s.db.tracks;
      hide FindIdenticalTrack, WellKept, MayInsert, Relink;
    }
  }

  /** A line of the chain comes out under its root. */
  lemma MemberJoins(s: Pass, t: TrackLine, r: int, root: int, render: Render)
    requires Proper(s) && TrackStep(s, t, render).Success? && TextOf(s.releaseIds, t, render).Some?
    requires root != 0 && s.trackIds.Keys == s.trackRoots.Keys && r in s.trackRoots && s.trackRoots[r] == root
    requires t.root == r && t.supersedes.Some? && LineJoined(s, t, root, render)
    ensures var s' := TrackStep(s, t, render).value; t.id in s'.trackRoots && s'.trackRoots[t.id] == root
  {
    StepEffect(s, t, render);
    assert Relink(s, t).1 == root;
    hide TrackStep, Relink, TextOf, SaidBy;
  }

  /** A line leaves every other line of the chain joined, if it is of the chain or apart from it. */
  lemma StaysJoined(s: Pass, u: TrackLine, t: TrackLine, r: int, root: int, render: Render)
    requires Proper(s) && TrackStep(s, u, render).Success? && LineJoined(s, t, root, render)
    requires t.root == r && t.supersedes.Some?
    requires if u.root == r
             then TextOf(s.releaseIds, u, render).Some? ==>
                    u.id in TrackStep(s, u, render).value.trackRoots &&
                        TrackStep(s, u, render).value.trackRoots[u.id] == root
             else Apart(t, u, s.releaseIds, render)
    ensures LineJoined(TrackStep(s, u, render).value, t, root, render)
  {
    StepEffect(s, u, render);
    hide TrackStep, TextOf, Relink;
    var s' := TrackStep(s, u, render).value;
    forall x | x in s'.db.tracks && SaidBy(s'.db.tracks[x], TextOf(s.releaseIds, t, render))
        ensures s'.db.tracks[x].root == root {
    }
  }

  lemma RestIsChained(ts: seq<TrackLine>, releaseIds: map<int, int>, r: int, render: Render)
    requires ts != [] && ChainedLines(ts, releaseIds, r, render)
    ensures ChainedLines(ts[1..], releaseIds, r, render)
  {
    hide Apart;
    assert forall i :: 0 <= i < |ts[1..]| ==> ts[1..][i] == ts[i + 1];
  }

  lemma JoinedStep(s: Pass, ts: seq<TrackLine>, r: int, root: int, render: Render)
    requires ts != [] && Proper(s) && TrackStep(s, ts[0], render).Success?
    requires ChainedLines(ts, s.releaseIds, r, render) && Joined(s, ts, r, root, render)
    ensures var s' := TrackStep(s, ts[0], render).value;
            && ChainedLines(ts[1..], s'.releaseIds, r, render) && Joined(s', ts[1..], r, root, render)
            && (ts[0].root == r && TextOf(s.releaseIds, ts[0], render).Some? ==>
                  ts[0].id in s'.trackRoots && s'.trackRoots[ts[0].id] == root)
  {
    var u, rest := ts[0], ts[1..];
    var s' := TrackStep(s, u, render).value;
    StepEffect(s, u, render);
    RestIsChained(ts, s.releaseIds, r, render);
    hide TrackStep, TextOf, Relink, SaidBy, LineJoined, Apart, Proper;
    if u.root == r && TextOf(s.releaseIds, u, render).Some? {
      MemberJoins(s, u, r, root, render);
    }
    forall i | 0 <= i < |rest| && rest[i].root == r ensures LineJoined(s', rest[i], root, render) {
      assert rest[i] == ts[i + 1];
      StaysJoined(s, u, rest[i], r, root, render);
    }
  }

  function LinesOf(ts: seq<TrackLine>): seq<Line> {
    seq(|ts|, i requires 0 <= i < |ts| => OfTrack(ts[i]))
  }

  /** The lines in `ts` are the only ones whose roots `after` may remember differently. */
  ghost predicate OthersKept(before: Pass, after: Pass, ts: seq<TrackLine>) {
    forall x :: x in before.trackRoots && (forall j :: 0 <= j < |ts| ==> ts[j].id != x) ==>
      x in after.trackRoots && after.trackRoots[x] == before.trackRoots[x]
  }

  /** Every line of the chain that was not dropped is under `root`. */
  ghost predicate AllJoined(after: Pass, ts: seq<TrackLine>, releaseIds: map<int, int>, r: int, root: int,
                            render: Render) {
    forall i :: 0 <= i < |ts| && ts[i].root == r && TextOf(releaseIds, ts[i], render).Some? ==>
      ts[i].id in after.trackRoots && after.trackRoots[ts[i].id] == root
  }

  lemma FirstJoinsTheRest(s: Pass, s1: Pass, after: Pass, ts: seq<TrackLine>, r: int, root: int, render: Render)
    requires ts != [] && s1.releaseIds == s.releaseIds
    requires forall i, j :: 0 <= i < j < |ts| ==> ts[i].id != ts[j].id
    requires forall x :: x in s.trackRoots && x != ts[0].id ==>
               x in s1.trackRoots && s1.trackRoots[x] == s.trackRoots[x]
    requires ts[0].root == r && TextOf(s.releaseIds, ts[0], render).Some? ==>
               ts[0].id in s1.trackRoots && s1.trackRoots[ts[0].id] == root
    requires OthersKept(s1, after, ts[1..]) && AllJoined(after, ts[1..], s.releaseIds, r, root, render)
    ensures OthersKept(s, after, ts) && AllJoined(after, ts, s.releaseIds, r, root, render)
  {
    hide TextOf;
    var rest := ts[1..];
    assert forall i :: 0 < i < |ts| ==> rest[i - 1] == ts[i];
    assert forall j :: 0 <= j < |rest| ==> rest[j] == ts[j + 1] && rest[j].id != ts[0].id;
  }

  /** Into a node in any state: once the root's line is in, every later line of its chain that is not
      dropped comes out under the root's local root, whichever revisions are missing, provided the
      rows already here that say the same are there too. */
  lemma {:induction false} LaterRevisionsJoin(s: Pass, ts: seq<TrackLine>, r: int, root: int, render: Render)
    requires Proper(s) && ChainedLines(ts, s.releaseIds, r, render) && Joined(s, ts, r, root, render)
    requires Import(s, LinesOf(ts), render).1.None?
    ensures var after := Import(s, LinesOf(ts), render).0;
            OthersKept(s, after, ts) && AllJoined(after, ts, s.releaseIds, r, root, render)
    decreases |ts|
  {
    if ts != [] {
      var lines := LinesOf(ts);
      assert lines[1..] == LinesOf(ts[1..]) && lines[0] == OfTrack(ts[0]);
      var s1 := TrackStep(s, ts[0], render).value;
      TrackStepKeeps(s, ts[0], render);
      StepEffect(s, ts[0], render);
      JoinedStep(s, ts, r, root, render);
      assert Import(s, lines, render) == Import(s1, LinesOf(ts[1..]), render);
      hide Import, TrackLines, TrackStep, TextOf, Proper, Joined, Extends, Relink, SaidBy, OthersKept, AllJoined, Apart;
      LaterRevisionsJoin(s1, ts[1..], r, root, render);
      FirstJoinsTheRest(s, s1, Import(s1, LinesOf(ts[1..]), render).0, ts, r, root, render);
    }
  }
}
